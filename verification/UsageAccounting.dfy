/**
  The token accounts of one conversation: budgets announced before a model request, usages
  reported after it, and usages of background reviews (`_record_request_budget`,
  `_record_usage`, `_record_review_usage`, `_next_request_sequence`).

  Reports arrive in any order. Totals must not depend on that order; what is said about the
  latest request must come from the latest request.
 */
module UsageAccounting {
  import opened Wrappers

  /** A dictionary entry: absent, or present with a value that may not be a number. */
  datatype Entry<T> = Missing | Given(value: Option<T>)

  /** What is kept of a budget */
  datatype Estimate = Estimate(
    available: bool, input: Option<int>, messages: Option<int>, system: Option<int>, tools: Option<int>,
    multimodal: Option<int>, ratio: Option<real>, remaining: Option<int>, overLimit: Option<bool>,
    messageCount: int, toolCount: int, imageCount: int, unknownMultimodalCount: int,
    modelMaxOutput: Option<int>, configuredOutputLimit: Option<int>)

  const NO_ESTIMATE :=
    Estimate(false, None, None, None, None, None, None, None, None, 0, 0, 0, 0, None, None)

  datatype Budget =
    | EmptyBudget
    | Budget(sequence: Entry<int>, estimate: Estimate, model: Entry<string>, contextWindow: Option<int>)

  datatype Usage =
    | EmptyUsage
    | Usage(sequence: Entry<int>, budgetRecorded: Option<bool>, model: Option<string>, contextWindow: Option<int>,
            hasUsage: bool, inputAvailable: bool, input: Option<int>, output: Option<int>, total: Option<int>,
            cacheAvailable: bool, cacheRead: Option<int>, cacheWrite: Option<int>, uncached: Option<int>,
            contextRatio: Option<real>, cacheHitRatio: Option<real>, estimated: Option<int>)

  /** The running sums of a conversation */
  datatype Totals = Totals(
    calls: nat, input: int, output: int, total: int, cacheRead: int, cacheWrite: int, uncached: int, cacheSeen: bool)
  {
    function Plus(other: Totals): Totals {
      Totals(calls + other.calls, input + other.input, output + other.output, total + other.total,
             cacheRead + other.cacheRead, cacheWrite + other.cacheWrite, uncached + other.uncached,
             cacheSeen || other.cacheSeen)
    }
  }

  const NOTHING := Totals(0, 0, 0, 0, 0, 0, 0, false)

  /** The last reported usage of the current request */
  datatype Recent = Recent(
    inputAvailable: bool, input: Option<int>, output: Option<int>, total: Option<int>, contextRatio: Option<real>,
    cacheAvailable: bool, cacheRead: int, cacheWrite: int, uncached: int, cacheHitRatio: Option<real>)

  const NO_USAGE := Recent(false, None, None, None, None, false, 0, 0, 0, None)

  /** How far the estimate of the current request was off */
  datatype Calibration = Calibration(actual: Option<int>, error: Option<int>, ratio: Option<real>)

  const UNCALIBRATED := Calibration(None, None, None)

  datatype Identity = Identity(model: Option<string>, contextWindow: Option<int>)

  datatype Account = Account(
    lastSequence: int, identity: Identity, estimate: Estimate, recent: Recent, calibration: Calibration, totals: Totals)

  const OPENED := Account(0, Identity(None, None), NO_ESTIMATE, NO_USAGE, UNCALIBRATED, NOTHING)

  function Max(a: int, b: int): int {
    if a < b then b else a
  }

  function Positive(window: Option<int>): Option<int> {
    if window.Some? && window.value > 0 then window else None
  }

  function Named(model: Option<string>): Option<string> {
    if model.Some? && model.value != "" then model else None
  }

  // ---------------------------------------------------------------------------------------
  // What each report means
  // ---------------------------------------------------------------------------------------

  /** What one usage costs */
  function Spent(u: Usage): Totals {
    if u.EmptyUsage? then NOTHING
    else if !u.hasUsage then NOTHING.(calls := 1)
    else
      var input, output := u.input.Or(0), u.output.Or(0);
      var read, written := u.cacheRead.Or(0), u.cacheWrite.Or(0);
      Totals(1, input, output, u.total.Or(input + output), read, written,
             u.uncached.Or(Max(input - read - written, 0)), u.cacheAvailable)
  }

  /** The usage a report leaves behind when it belongs to the current request */
  function Reported(u: Usage): Recent
    requires u.Usage?
  {
    var spent := Spent(u);
    if !u.hasUsage then NO_USAGE
    else
      Recent(u.inputAvailable, if u.inputAvailable then Some(spent.input) else None, Some(spent.output),
             Some(spent.total), u.contextRatio, u.cacheAvailable, spent.cacheRead, spent.cacheWrite, spent.uncached,
             u.cacheHitRatio)
  }

  function Calibrated(actual: int, estimated: int): Calibration {
    var error := actual - estimated;
    Calibration(Some(actual), Some(error), if actual != 0 then Some(error as real / actual as real) else None)
  }

  /** The budget recorded for a request whose own budget never came */
  function Placeholder(sequence: int): Budget {
    Budget(Given(Some(sequence)), NO_ESTIMATE, Missing, None)
  }

  // ---------------------------------------------------------------------------------------
  // The accounts, as functions of the account before
  // ---------------------------------------------------------------------------------------

  function AfterBudget(a: Account, b: Budget): Account {
    if b.EmptyBudget? || b.sequence == Given(None) then a
    else
      var sequence := if b.sequence.Missing? then 0 else b.sequence.value.value;
      if sequence < a.lastSequence then a
      else
        a.(lastSequence := sequence,
           estimate := b.estimate,
           identity :=
             if b.model.Given? then Identity(Named(b.model.value), Positive(b.contextWindow))
             else if b.estimate.available then a.identity.(contextWindow := Positive(b.contextWindow))
             else a.identity,
           calibration := UNCALIBRATED)
  }

  /** Whether a usage brings the budget its request never announced */
  predicate LacksBudget(a: Account, u: Usage) {
    && u.Usage? && u.budgetRecorded == Some(false)
    && u.sequence.Given? && u.sequence.value.Some? && u.sequence.value.value >= a.lastSequence
  }

  function WithPlaceholder(a: Account, u: Usage): Account {
    if LacksBudget(a, u) then AfterBudget(a, Placeholder(u.sequence.value.value)) else a
  }

  predicate IsCurrent(a: Account, u: Usage) {
    u.Usage? && (u.sequence.Missing? || u.sequence.value == Some(a.lastSequence))
  }

  predicate Calibrates(a: Account, u: Usage) {
    && u.Usage? && u.hasUsage && u.budgetRecorded == Some(true) && u.inputAvailable
    && u.estimated.Some? && u.estimated == a.estimate.input
  }

  function AfterUsage(a: Account, u: Usage): Account {
    var b := WithPlaceholder(a, u);
    var c := b.(totals := a.totals.Plus(Spent(u)));
    if !IsCurrent(b, u) then c
    else
      c.(identity := Identity(if Named(u.model).Some? then u.model else b.identity.model, Positive(u.contextWindow)),
         recent := Reported(u),
         calibration :=
           if Calibrates(b, u) then Calibrated(u.input.Or(0), u.estimated.value) else b.calibration)
  }

  /** A review's usage is filed under a sequence no request has. */
  function OfReview(u: Usage): Usage {
    if u.EmptyUsage? then Usage(Given(Some(-1)), None, None, None, false, false, None, None, None, false, None, None,
                                None, None, None, None)
    else u.(sequence := Given(Some(-1)))
  }

  // ---------------------------------------------------------------------------------------
  // The account itself
  // ---------------------------------------------------------------------------------------

  /** A usage is one call, and without counts nothing else. */
  lemma OneCall(t: Totals, u: Usage)
    requires u.Usage?
    ensures t.Plus(Spent(u)) ==
            if u.hasUsage then t.(calls := t.calls + 1).Plus(Spent(u).(calls := 0)) else t.(calls := t.calls + 1)
    ensures !u.hasUsage ==> Reported(u) == NO_USAGE && forall a :: !Calibrates(a, u)
  {
  }

  class SessionUsage {
    var requestSequence: nat
    var lastRequestSequence: int
    var model: Option<string>
    var contextWindowTokens: Option<int>
    var estimate: Estimate
    var recent: Recent
    var calibration: Calibration
    var totals: Totals

    ghost function State(): Account
      reads this
    {
      Account(
        lastRequestSequence, Identity(model, contextWindowTokens), estimate, recent, calibration, totals)
    }

    constructor ()
      ensures State() == OPENED && requestSequence == 0
    {
      requestSequence, lastRequestSequence := 0, 0;
      model, contextWindowTokens := None, None;
      estimate, recent, calibration, totals := NO_ESTIMATE, NO_USAGE, UNCALIBRATED, NOTHING;
    }

    method NextRequestSequence() returns (sequence: nat)
      modifies `requestSequence
      ensures sequence == requestSequence == old(requestSequence) + 1
    {
      requestSequence := requestSequence + 1;
      sequence := requestSequence;
    }

    method RecordRequestBudget(b: Budget)
      modifies this
      ensures State() == AfterBudget(old(State()), b) && requestSequence == old(requestSequence)
    {
      if b.EmptyBudget? {
        return;
      }
      var sequence := 0;
      if b.sequence.Given? {
        if b.sequence.value.None? {
          return;
        }
        sequence := b.sequence.value.value;
      }
      if sequence < lastRequestSequence {
        return;
      }
      lastRequestSequence := sequence;
      estimate := b.estimate;
      if b.model.Given? {
        model := Named(b.model.value);
        contextWindowTokens := Positive(b.contextWindow);
      } else if b.estimate.available {
        contextWindowTokens := Positive(b.contextWindow);
      }
      calibration := UNCALIBRATED;
    }

    method RecordUsage(u: Usage)
      modifies this
      ensures State() == AfterUsage(old(State()), u) && requestSequence == old(requestSequence)
    {
      if u.EmptyUsage? {
        return;
      }
      OneCall(totals, u);
      hide Spent, Reported, Calibrates, Calibrated, Totals.Plus;
      totals := totals.(calls := totals.calls + 1);
      var sequence := if u.sequence.Given? then u.sequence.value else None;
      if u.budgetRecorded == Some(false) && sequence.Some? && sequence.value >= lastRequestSequence {
        RecordRequestBudget(Placeholder(sequence.value));
      }
      ghost var announced := WithPlaceholder(old(State()), u);
      assert State() == announced.(totals := totals);
      var current := u.sequence.Missing? || sequence == Some(lastRequestSequence);
      assert current == IsCurrent(announced, u);
      hide WithPlaceholder;
      if current {
        if Named(u.model).Some? {
          model := u.model;
        }
        contextWindowTokens := Positive(u.contextWindow);
      }
      if u.hasUsage {
        RecordCounts(u, current);
      } else if current {
        recent := NO_USAGE;
      }
    }

    /** The rest of `_record_usage`, for a usage that holds counts */
    method RecordCounts(u: Usage, current: bool)
      requires u.Usage? && u.hasUsage
      modifies `totals, `recent, `calibration
      ensures totals == old(totals).Plus(Spent(u).(calls := 0))
      ensures recent == if current then Reported(u) else old(recent)
      ensures calibration ==
              if current && Calibrates(old(State()), u) then Calibrated(u.input.Or(0), u.estimated.value)
              else old(calibration)
    {
      var input, output := u.input.Or(0), u.output.Or(0);
      var total := u.total.Or(input + output);
      var read, written := u.cacheRead.Or(0), u.cacheWrite.Or(0);
      var uncached := u.uncached.Or(Max(input - read - written, 0));
      totals := totals.(input := totals.input + input, output := totals.output + output,
                        total := totals.total + total, cacheRead := totals.cacheRead + read,
                        cacheWrite := totals.cacheWrite + written, uncached := totals.uncached + uncached,
                        cacheSeen := totals.cacheSeen || u.cacheAvailable);
      if !current {
        return;
      }
      recent := Recent(u.inputAvailable, if u.inputAvailable then Some(input) else None, Some(output), Some(total),
                       u.contextRatio, u.cacheAvailable, read, written, uncached, u.cacheHitRatio);
      if u.budgetRecorded == Some(true) && u.inputAvailable && u.estimated.Some? && u.estimated == estimate.input {
        var error := input - u.estimated.value;
        calibration :=
          Calibration(Some(input), Some(error), if input != 0 then Some(error as real / input as real) else None);
      }
    }

    method RecordReviewUsage(u: Usage)
      modifies this
      ensures State() == AfterUsage(old(State()), OfReview(u)) && requestSequence == old(requestSequence)
    {
      RecordUsage(OfReview(u));
    }
  }

  // ---------------------------------------------------------------------------------------
  // Whole conversations
  // ---------------------------------------------------------------------------------------

  datatype Event = Announced(budget: Budget) | Used(usage: Usage) | Reviewed(usage: Usage)

  function Next(a: Account, e: Event): Account {
    match e
    case Announced(b) => AfterBudget(a, b)
    case Used(u) => AfterUsage(a, u)
    case Reviewed(u) => AfterUsage(a, OfReview(u))
  }

  function Run(events: seq<Event>): Account {
    if events == [] then OPENED else Next(Run(events[..|events| - 1]), events[|events| - 1])
  }

  // ---- Totals

  /** What one event costs, whatever came before it */
  function Cost(e: Event): Totals {
    match e
    case Announced(_) => NOTHING
    case Used(u) => Spent(u)
    case Reviewed(u) => Spent(OfReview(u))
  }

  function Sum(events: seq<Event>): Totals {
    if events == [] then NOTHING else Cost(events[0]).Plus(Sum(events[1..]))
  }

  lemma PlusLaws(a: Totals, b: Totals, c: Totals)
    ensures a.Plus(b).Plus(c) == a.Plus(b.Plus(c))
    ensures a.Plus(b) == b.Plus(a)
    ensures NOTHING.Plus(c) == c == c.Plus(NOTHING)
  {
  }

  lemma {:induction false} SumOfConcat(xs: seq<Event>, ys: seq<Event>)
    ensures Sum(xs + ys) == Sum(xs).Plus(Sum(ys))
  {
    hide Cost, Totals.Plus;
    PlusLaws(NOTHING, NOTHING, Sum(ys));
    if xs == [] {
      assert xs + ys == ys;
    } else {
      assert (xs + ys)[1..] == xs[1..] + ys;
      SumOfConcat(xs[1..], ys);
      PlusLaws(Cost(xs[0]), Sum(xs[1..]), Sum(ys));
    }
  }

  lemma SumOfOne(e: Event)
    ensures Sum([e]) == Cost(e)
  {
    hide Cost, Totals.Plus;
    assert [e][1..] == [];
    PlusLaws(Cost(e), NOTHING, NOTHING);
    PlusLaws(Cost(e), Cost(e), Cost(e));
  }

  lemma NextAdds(a: Account, e: Event)
    ensures Next(a, e).totals == a.totals.Plus(Cost(e))
  {
  }

  lemma NoTotals(events: seq<Event>)
    requires events == []
    ensures Run(events).totals == Sum(events)
  {
  }

  lemma RunStep(events: seq<Event>)
    requires events != []
    ensures Run(events) == Next(Run(events[..|events| - 1]), events[|events| - 1])
  {
  }

  /** The totals are the sum of what every usage cost: nothing is lost or counted twice. */
  lemma {:induction false} TotalsAreSums(events: seq<Event>)
    ensures Run(events).totals == Sum(events)
  {
    hide *;
    if events == [] {
      NoTotals(events);
    } else {
      var n := |events| - 1;
      RunStep(events);
      TotalsAreSums(events[..n]);
      NextAdds(Run(events[..n]), events[n]);
      SumOfOne(events[n]);
      SumOfConcat(events[..n], [events[n]]);
      assert events == events[..n] + [events[n]];
    }
  }

  /** The events that cost something */
  function Costly(events: seq<Event>): seq<Event> {
    if events == [] then []
    else (if events[0].Announced? then [] else [events[0]]) + Costly(events[1..])
  }

  lemma {:induction false} OnlyUsagesCost(events: seq<Event>)
    ensures Sum(Costly(events)) == Sum(events)
  {
    if events != [] {
      OnlyUsagesCost(events[1..]);
      var head := if events[0].Announced? then [] else [events[0]];
      SumOfConcat(head, Costly(events[1..]));
      if head != [] {
        assert head[1..] == [];
      }
    }
  }

  lemma SumWithout(events: seq<Event>, i: nat)
    requires i < |events|
    ensures Sum(events) == Cost(events[i]).Plus(Sum(events[..i] + events[i + 1..]))
  {
    hide *;
    var before, x, after := events[..i], events[i], events[i + 1..];
    assert events == before + ([x] + after);
    SumOfConcat(before, [x] + after);
    SumOfConcat([x], after);
    SumOfConcat(before, after);
    SumOfOne(x);
    PlusLaws(Sum(before), Cost(x), Sum(after));
    PlusLaws(Cost(x), Sum(before), Sum(after));
  }

  lemma MultisetWithout(events: seq<Event>, i: nat)
    requires i < |events|
    ensures multiset(events[..i] + events[i + 1..]) == multiset(events) - multiset{events[i]}
  {
    hide *;
    assert events == events[..i] + [events[i]] + events[i + 1..];
  }

  lemma {:induction false} SumIgnoresOrder(xs: seq<Event>, ys: seq<Event>)
    requires multiset(xs) == multiset(ys)
    ensures Sum(xs) == Sum(ys)
  {
    hide *;
    if xs == [] {
      assert |ys| == |multiset(ys)| == |multiset(xs)| == 0;
    } else {
      assert xs[0] in multiset(xs);
      var i :| 0 <= i < |ys| && ys[i] == xs[0];
      MultisetWithout(xs, 0);
      MultisetWithout(ys, i);
      SumIgnoresOrder(xs[..0] + xs[1..], ys[..i] + ys[i + 1..]);
      SumWithout(xs, 0);
      SumWithout(ys, i);
    }
  }

  /**
    Two conversations that reported the same usages, each as often as the other, have the same
    totals: in whatever order they came, and whatever budgets came between them.
   */
  lemma TotalsIgnoreOrder(xs: seq<Event>, ys: seq<Event>)
    requires multiset(Costly(xs)) == multiset(Costly(ys))
    ensures Run(xs).totals == Run(ys).totals
  {
    TotalsAreSums(xs);
    TotalsAreSums(ys);
    OnlyUsagesCost(xs);
    OnlyUsagesCost(ys);
    SumIgnoresOrder(Costly(xs), Costly(ys));
  }

  // ---- The numbers that were reported

  predicate HasCounts(e: Event) {
    !e.Announced? && e.usage.Usage? && e.usage.hasUsage
  }

  function Inputs(e: Event): int {
    if HasCounts(e) then e.usage.input.Or(0) else 0
  }

  function Outputs(e: Event): int {
    if HasCounts(e) then e.usage.output.Or(0) else 0
  }

  function Reads(e: Event): int {
    if HasCounts(e) then e.usage.cacheRead.Or(0) else 0
  }

  function Writes(e: Event): int {
    if HasCounts(e) then e.usage.cacheWrite.Or(0) else 0
  }

  function Tokens(e: Event): int {
    if HasCounts(e) && e.usage.total.Some? then e.usage.total.value else Inputs(e) + Outputs(e)
  }

  /** Input that no cache accounts for: as reported, or what is left of the input */
  function Uncached(e: Event): (n: int)
    ensures HasCounts(e) && e.usage.uncached.Some? ==> n == e.usage.uncached.value
    ensures (HasCounts(e) ==> e.usage.uncached.None?) ==>
      n >= 0 && if Reads(e) + Writes(e) <= Inputs(e) then Reads(e) + Writes(e) + n == Inputs(e) else n == 0
  {
    if HasCounts(e) && e.usage.uncached.Some? then e.usage.uncached.value
    else if Reads(e) + Writes(e) <= Inputs(e) then Inputs(e) - Reads(e) - Writes(e)
    else 0
  }

  function SumOf(events: seq<Event>, number: Event -> int): int {
    if events == [] then 0 else number(events[0]) + SumOf(events[1..], number)
  }

  /** Each number that a usage reports is booked under its own name. */
  lemma CostOfNumbers(e: Event)
    ensures Cost(e).input == Inputs(e) && Cost(e).output == Outputs(e) && Cost(e).total == Tokens(e)
    ensures Cost(e).cacheRead == Reads(e) && Cost(e).cacheWrite == Writes(e) && Cost(e).uncached == Uncached(e)
    ensures Cost(e).cacheSeen <==> HasCounts(e) && e.usage.cacheAvailable
  {
  }

  /** Over a whole conversation each stored total is the sum of the numbers reported under its name. */
  lemma EachTotalIsItsSum(events: seq<Event>)
    ensures
      var totals := Run(events).totals;
      && totals.input == SumOf(events, Inputs) && totals.output == SumOf(events, Outputs)
      && totals.total == SumOf(events, Tokens) && totals.uncached == SumOf(events, Uncached)
      && totals.cacheRead == SumOf(events, Reads) && totals.cacheWrite == SumOf(events, Writes)
      && (totals.cacheSeen <==> exists e :: e in events && HasCounts(e) && e.usage.cacheAvailable)
  {
    TotalsAreSums(events);
    SumOfNumbers(events);
  }

  lemma {:induction false} SumOfNumbers(events: seq<Event>)
    ensures Sum(events).input == SumOf(events, Inputs) && Sum(events).output == SumOf(events, Outputs)
    ensures Sum(events).total == SumOf(events, Tokens) && Sum(events).uncached == SumOf(events, Uncached)
    ensures Sum(events).cacheRead == SumOf(events, Reads) && Sum(events).cacheWrite == SumOf(events, Writes)
    ensures Sum(events).cacheSeen <==> exists e :: e in events && HasCounts(e) && e.usage.cacheAvailable
  {
    hide Cost, Inputs, Outputs, Tokens, Uncached, Reads, Writes, HasCounts;
    if events != [] {
      CostOfNumbers(events[0]);
      SumOfNumbers(events[1..]);
      SeenInSome(events);
    }
  }

  lemma SeenInSome(events: seq<Event>)
    requires events != []
    ensures (exists e :: e in events && HasCounts(e) && e.usage.cacheAvailable) <==>
            (HasCounts(events[0]) && events[0].usage.cacheAvailable)
            || exists e :: e in events[1..] && HasCounts(e) && e.usage.cacheAvailable
  {
    hide HasCounts;
    assert forall e :: e in events <==> e == events[0] || e in events[1..] by {
      assert events == [events[0]] + events[1..];
    }
  }

  // ---- The latest request

  /** The request an event announces, if it announces one */
  function Claim(e: Event): Option<int> {
    match e
    case Announced(b) =>
      if b.EmptyBudget? || b.sequence == Given(None) then None
      else if b.sequence.Missing? then Some(0) else b.sequence.value
    case Used(u) =>
      if u.Usage? && u.budgetRecorded == Some(false) && u.sequence.Given? then u.sequence.value else None
    case Reviewed(_) => None
  }

  function Latest(events: seq<Event>): (r: int) {
    if events == [] then 0
    else
      var before, claim := Latest(events[..|events| - 1]), Claim(events[|events| - 1]);
      if claim.Some? then Max(before, claim.value) else before
  }

  /** The highest request ever announced, or 0: an independent reading of `Latest` */
  lemma {:induction false} LatestIsHighest(events: seq<Event>)
    ensures Latest(events) >= 0
    ensures forall e :: e in events && Claim(e).Some? ==> Claim(e).value <= Latest(events)
    ensures Latest(events) == 0 || exists e :: e in events && Claim(e) == Some(Latest(events))
  {
    if events != [] {
      var n := |events| - 1;
      LatestIsHighest(events[..n]);
      assert events == events[..n] + [events[n]];
      var before := Latest(events[..n]);
      if Latest(events) == before {
        if before != 0 {
          var e :| e in events[..n] && Claim(e) == Some(before);
          assert e in events;
        }
      } else {
        assert events[n] in events && Claim(events[n]) == Some(Latest(events));
      }
    }
  }

  /** The stored sequence is the highest request ever announced, in whatever order they were announced. */
  lemma {:induction false} SequenceIsLatest(events: seq<Event>)
    ensures Run(events).lastSequence == Latest(events)
  {
    if events != [] {
      var n := |events| - 1;
      SequenceIsLatest(events[..n]);
      LatestIsHighest(events[..n]);
    }
  }

  lemma {:induction false} SequenceNeverDecreases(events: seq<Event>, more: seq<Event>)
    ensures Run(events).lastSequence <= Run(events + more).lastSequence
  {
    if more == [] {
      assert events + more == events;
    } else {
      var n := |more| - 1;
      SequenceNeverDecreases(events, more[..n]);
      assert (events + more)[..|events + more| - 1] == events + more[..n];
      assert (events + more)[|events + more| - 1] == more[n];
    }
  }

  /** A budget for a request newer than every announced one becomes the latest. */
  lemma FreshBudgetIsRecorded(events: seq<Event>, b: Budget, sequence: int)
    requires b.Budget? && b.sequence == Given(Some(sequence))
    requires forall e :: e in events && Claim(e).Some? ==> Claim(e).value < sequence
    requires sequence > 0
    ensures Run(events + [Announced(b)]).lastSequence == sequence
    ensures Run(events + [Announced(b)]).estimate == b.estimate
    ensures Run(events + [Announced(b)]).calibration == UNCALIBRATED
  {
    SequenceIsLatest(events);
    LatestIsHighest(events);
    var all := events + [Announced(b)];
    assert all[..|all| - 1] == events && all[|all| - 1] == Announced(b);
  }

  /** The estimate an announcing event stores */
  function EstimateOf(e: Event): Estimate
    requires Claim(e).Some?
  {
    if e.Announced? then e.budget.estimate else NO_ESTIMATE
  }

  /** Event `i` is the last to announce the latest request. */
  predicate Decides(events: seq<Event>, i: nat) {
    && i < |events|
    && Claim(events[i]) == Some(Latest(events))
    && (forall j :: i < j < |events| ==> Claim(events[j]) != Some(Latest(events)))
  }

  lemma StoredEstimate(a: Account, e: Event)
    requires a.lastSequence >= 0
    ensures
      Next(a, e).estimate ==
      if Claim(e).Some? && Claim(e).value >= a.lastSequence then EstimateOf(e) else a.estimate
  {
    hide Spent, Reported, Calibrates;
  }

  /** The stored estimate is the last one announced for the latest request, and no other. */
  lemma {:induction false} EstimateIsOfLatest(events: seq<Event>, i: nat)
    requires Decides(events, i)
    ensures Run(events).estimate == EstimateOf(events[i])
  {
    hide Next, Claim, EstimateOf;
    var n := |events| - 1;
    var before := events[..n];
    SequenceIsLatest(before);
    LatestIsHighest(before);
    StoredEstimate(Run(before), events[n]);
    if i < n {
      LatestOfPrefix(events, i);
      EstimateIsOfLatest(before, i);
    }
  }

  lemma {:induction false} NoEstimateWithoutBudget(events: seq<Event>)
    requires forall i: nat :: !Decides(events, i)
    ensures Latest(events) == 0 && Run(events).estimate == NO_ESTIMATE && Run(events).calibration == UNCALIBRATED
  {
    LatestIsHighest(events);
    forall e | e in events
      ensures Claim(e) != Some(Latest(events))
    {
      if Claim(e) == Some(Latest(events)) {
        var i :| 0 <= i < |events| && events[i] == e;
        var _ := LastClaim(events, i);
        assert false;
      }
    }
    NeverAnnounced(events);
  }

  ghost function LastClaim(events: seq<Event>, i: nat): (k: nat)
    requires i < |events| && Claim(events[i]) == Some(Latest(events))
    ensures Decides(events, k)
    decreases |events| - i
  {
    if j: nat :| i < j < |events| && Claim(events[j]) == Some(Latest(events)) then LastClaim(events, j) else i
  }

  lemma {:induction false} NeverAnnounced(events: seq<Event>)
    requires forall e :: e in events && Claim(e).Some? ==> Claim(e).value < 0
    ensures Run(events).estimate == NO_ESTIMATE && Latest(events) == 0 && Run(events).calibration == UNCALIBRATED
  {
    hide Next, Claim, EstimateOf;
    if events != [] {
      var n := |events| - 1;
      assert events[n] in events;
      NeverAnnounced(events[..n]);
      SequenceIsLatest(events[..n]);
      StoredEstimate(Run(events[..n]), events[n]);
      StoredCalibration(Run(events[..n]), events[n]);
    }
  }

  /** If the last event does not announce the latest request, the ones before it did. */
  lemma LatestOfPrefix(events: seq<Event>, i: nat)
    requires Decides(events, i) && i < |events| - 1
    ensures Latest(events[..|events| - 1]) == Latest(events)
    ensures Decides(events[..|events| - 1], i)
  {
    var before := events[..|events| - 1];
    LatestIsHighest(before);
    assert before[i] == events[i] && events[i] in before;
  }

  // ---- The usage of the latest request

  /** The usage of event `i`, as it is recorded */
  function UsageOf(e: Event): Usage
    requires !e.Announced?
  {
    if e.Used? then e.usage else OfReview(e.usage)
  }

  /** Event `i` reported on the request that was the latest when the report came. */
  predicate OnTime(events: seq<Event>, i: nat) {
    && i < |events| && events[i].Used? && events[i].usage.Usage?
    && (|| events[i].usage.sequence.Missing?
        || events[i].usage.sequence.value == Some(Latest(events[..i + 1])))
  }

  lemma OnTimeIsCurrent(events: seq<Event>)
    requires events != [] && !events[|events| - 1].Announced?
    ensures
      var n := |events| - 1;
      var u := UsageOf(events[n]);
      OnTime(events, n) <==> IsCurrent(WithPlaceholder(Run(events[..n]), u), u)
  {
    var n := |events| - 1;
    SequenceIsLatest(events[..n]);
    LatestIsHighest(events[..n]);
    assert events[..n + 1] == events;
  }

  lemma OnTimeOfPrefix(events: seq<Event>, n: nat, i: nat)
    requires i < n <= |events|
    ensures OnTime(events, i) <==> OnTime(events[..n], i)
  {
    assert events[..n][..i + 1] == events[..i + 1];
  }

  /** The stored usage is the one reported by the last event that was on time. */
  lemma {:induction false} RecentIsLastOnTime(events: seq<Event>, i: nat)
    requires OnTime(events, i) && forall j :: i < j < |events| ==> !OnTime(events, j)
    ensures Run(events).recent == Reported(events[i].usage)
  {
    var n := |events| - 1;
    if !events[n].Announced? {
      OnTimeIsCurrent(events);
    }
    if i < n {
      forall j | i <= j < n
        ensures OnTime(events, j) <==> OnTime(events[..n], j)
      {
        OnTimeOfPrefix(events, n, j);
      }
      RecentIsLastOnTime(events[..n], i);
    }
  }

  /** So its numbers are what is said of the latest request. */
  lemma RecentNumbers(events: seq<Event>, i: nat)
    requires OnTime(events, i) && forall j :: i < j < |events| ==> !OnTime(events, j)
    ensures
      var e, recent := events[i], Run(events).recent;
      if !e.usage.hasUsage then recent == NO_USAGE
      else
        && recent.inputAvailable == e.usage.inputAvailable
        && recent.input == (if e.usage.inputAvailable then Some(Inputs(e)) else None)
        && recent.output == Some(Outputs(e)) && recent.total == Some(Tokens(e))
        && recent.cacheAvailable == e.usage.cacheAvailable && recent.cacheRead == Reads(e)
        && recent.cacheWrite == Writes(e) && recent.uncached == Uncached(e)
        && recent.contextRatio == e.usage.contextRatio && recent.cacheHitRatio == e.usage.cacheHitRatio
  {
    RecentIsLastOnTime(events, i);
    CostOfNumbers(events[i]);
    hide Run, OnTime;
  }

  lemma {:induction false} NothingOnTime(events: seq<Event>)
    requires forall j :: 0 <= j < |events| ==> !OnTime(events, j)
    ensures Run(events).recent == NO_USAGE
  {
    if events != [] {
      var n := |events| - 1;
      if !events[n].Announced? {
        OnTimeIsCurrent(events);
      }
      forall j | 0 <= j < n
        ensures !OnTime(events[..n], j)
      {
        OnTimeOfPrefix(events, n, j);
      }
      NothingOnTime(events[..n]);
    }
  }

  // ---- The model of the latest request

  /** Event `i` was taken into account for the latest request when it came. */
  predicate Counts(events: seq<Event>, i: nat) {
    i < |events| &&
    match events[i]
    case Announced(_) => Claim(events[i]) == Some(Latest(events[..i + 1]))
    case Used(_) => OnTime(events, i)
    case Reviewed(_) => false
  }

  /** The model an event names, if it says anything about the model */
  function ModelOf(e: Event): Entry<string> {
    match e
    case Announced(b) => if b.Budget? then b.model else Missing
    case Used(u) => if u.Usage? && Named(u.model).Some? then Given(u.model) else Missing
    case Reviewed(_) => Missing
  }

  /** The context window an event states, or None if it leaves the window alone */
  function WindowOf(e: Event): Option<Option<int>> {
    match e
    case Announced(b) =>
      if b.Budget? && (b.model.Given? || b.estimate.available) then Some(Positive(b.contextWindow)) else None
    case Used(u) => if u.Usage? then Some(Positive(u.contextWindow)) else None
    case Reviewed(_) => None
  }

  lemma CountsOfPrefix(events: seq<Event>, n: nat, i: nat)
    requires i < n <= |events|
    ensures Counts(events, i) <==> Counts(events[..n], i)
  {
    assert events[..n][..i + 1] == events[..i + 1];
    OnTimeOfPrefix(events, n, i);
  }

  lemma StoredIdentity(events: seq<Event>)
    requires events != []
    ensures
      var n := |events| - 1;
      var a, e := Run(events[..n]), events[n];
      if Counts(events, n) then
        && Run(events).identity.model == (if ModelOf(e).Given? then Named(ModelOf(e).value) else a.identity.model)
        && Run(events).identity.contextWindow == WindowOf(e).Or(a.identity.contextWindow)
      else Run(events).identity == a.identity
  {
    hide Spent, Reported, Calibrates, Calibrated;
    var n := |events| - 1;
    SequenceIsLatest(events[..n]);
    LatestIsHighest(events[..n]);
    assert events[..n + 1] == events;
    if !events[n].Announced? {
      OnTimeIsCurrent(events);
    }
  }

  /**
    The stored model and window are those of the last event that counts, except for what that
    event leaves out, which stays as the events before it left it.
   */
  lemma {:induction false} IdentityIsOfLastReport(events: seq<Event>, i: nat)
    requires Counts(events, i) && forall j :: i < j < |events| ==> !Counts(events, j)
    ensures Run(events).identity.model ==
            if ModelOf(events[i]).Given? then Named(ModelOf(events[i]).value) else Run(events[..i]).identity.model
    ensures Run(events).identity.contextWindow == WindowOf(events[i]).Or(Run(events[..i]).identity.contextWindow)
  {
    assert i < |events|;
    hide Run, Counts, ModelOf, WindowOf;
    var n := |events| - 1;
    StoredIdentity(events);
    if i < n {
      forall j | i <= j < n
        ensures Counts(events, j) <==> Counts(events[..n], j)
      {
        CountsOfPrefix(events, n, j);
      }
      IdentityIsOfLastReport(events[..n], i);
      assert events[..n][..i] == events[..i];
    }
  }

  /**
    So the pair may be spliced from two requests: a budget with an estimate but without a model
    replaces the window of the model before it.
   */
  lemma ModelsMayBeSpliced(model: string, before: int, after: int)
    requires model != "" && before > 0 && after > 0
    ensures
      var first := Announced(Budget(Given(Some(1)), NO_ESTIMATE, Given(Some(model)), Some(before)));
      var second := Announced(Budget(Given(Some(2)), NO_ESTIMATE.(available := true), Missing, Some(after)));
      && Run([first]).identity == Identity(Some(model), Some(before))
      && Run([first, second]).identity == Identity(Some(model), Some(after))
  {
    var first := Announced(Budget(Given(Some(1)), NO_ESTIMATE, Given(Some(model)), Some(before)));
    var second := Announced(Budget(Given(Some(2)), NO_ESTIMATE.(available := true), Missing, Some(after)));
    assert [first][..0] == [];
    assert [first, second][..1] == [first];
    RunStep([first]);
    RunStep([first, second]);
  }

  /**
    It happens with what the middleware reports, too: the budget of a model without a name
    could not be recorded, and its usage then states its window under the earlier name.
   */
  lemma UnnamedModelIsSpliced(model: string, before: int, after: int)
    requires model != "" && before > 0 && after > 0
    ensures
      var first := Announced(Budget(Given(Some(1)), NO_ESTIMATE, Given(Some(model)), Some(before)));
      var second := Used(UnnamedUsage(2, after));
      Run([first, second]).identity == Identity(Some(model), Some(after))
  {
    hide *;
    var first := Announced(Budget(Given(Some(1)), NO_ESTIMATE, Given(Some(model)), Some(before)));
    var second := Used(UnnamedUsage(2, after));
    assert [first, second][..1] == [first];
    ModelsMayBeSpliced(model, before, after);
    FirstBudget(first);
    RunStep([first, second]);
    UnnamedStep(Run([first]), after);
  }

  lemma FirstBudget(e: Event)
    requires e.Announced? && e.budget.Budget? && e.budget.sequence == Given(Some(1))
    ensures Run([e]).lastSequence == 1
  {
    assert [e][..0] == [];
    RunStep([e]);
  }

  lemma UnnamedStep(a: Account, window: int)
    requires a.lastSequence == 1 && window > 0
    ensures Next(a, Used(UnnamedUsage(2, window))).identity == Identity(a.identity.model, Some(window))
  {
    hide Spent, Reported, Calibrates, Calibrated, Totals.Plus;
  }

  /** The usage of a request without a response, of a model without a name, whose budget was not recorded */
  function UnnamedUsage(sequence: int, window: int): Usage {
    Usage(Given(Some(sequence)), Some(false), None, Some(window), false, false, Some(0), Some(0), Some(0), false,
          Some(0), Some(0), Some(0), None, None, None)
  }

  /** The last event that counted and named the model, or -1 */
  function ModelSource(events: seq<Event>): (r: int)
    ensures -1 <= r < |events| && (r != -1 ==> ModelOf(events[r]).Given?)
  {
    var n := |events| - 1;
    if events == [] then -1
    else if Counts(events, n) && ModelOf(events[n]).Given? then n else ModelSource(events[..n])
  }

  /** The last event that counted and stated the window, or -1 */
  function WindowSource(events: seq<Event>): (r: int)
    ensures -1 <= r < |events| && (r != -1 ==> WindowOf(events[r]).Some?)
  {
    var n := |events| - 1;
    if events == [] then -1
    else if Counts(events, n) && WindowOf(events[n]).Some? then n else WindowSource(events[..n])
  }

  lemma NamedIsStated(e: Event)
    ensures ModelOf(e).Given? ==> WindowOf(e).Some?
  {
  }

  /**
    The stored model and window come from one event exactly when the last event that stated a
    window named a model as well, or none stated one.
   */
  lemma {:induction false} OneSourceExactly(events: seq<Event>)
    ensures
      var m, w := ModelSource(events), WindowSource(events);
      && Run(events).identity.model == (if m == -1 then None else Named(ModelOf(events[m]).value))
      && Run(events).identity.contextWindow == (if w == -1 then None else WindowOf(events[w]).value)
      && m <= w && (m == w <==> w == -1 || ModelOf(events[w]).Given?)
  {
    hide Next, Counts, ModelOf, WindowOf;
    if events != [] {
      var n := |events| - 1;
      OneSourceExactly(events[..n]);
      StoredIdentity(events);
      NamedIsStated(events[n]);
    }
  }

  // ---- What leaves the latest request alone

  /** A usage counts as a call unless it is empty; a review's counts even then. */
  lemma WhichCallsCount(u: Usage)
    ensures Cost(Used(u)).calls == (if u.EmptyUsage? then 0 else 1)
    ensures Cost(Reviewed(u)).calls == 1
  {
  }

  /**
    An empty usage, or one of another request: of one before the latest, of one after it whose
    budget was recorded or is not reported on, or of none that can be told.
   */
  predicate IsOfAnother(events: seq<Event>, u: Usage) {
    u.EmptyUsage? ||
    (u.sequence.Given? &&
     match u.sequence.value
     case None => true
     case Some(n) => n < Latest(events) || (n > Latest(events) && u.budgetRecorded != Some(false)))
  }

  /** It changes the totals and nothing that is said about the latest request. */
  lemma StaleUsageOnlyCosts(events: seq<Event>, u: Usage)
    requires IsOfAnother(events, u)
    ensures Run(events + [Used(u)]) == Run(events).(totals := Run(events).totals.Plus(Spent(u)))
  {
    hide Spent, Latest, Totals.Plus, Reported;
    SequenceIsLatest(events);
    var all := events + [Used(u)];
    RunStep(all);
    assert all[..|all| - 1] == events && all[|all| - 1] == Used(u);
    PlusLaws(NOTHING, NOTHING, Run(events).totals);
  }

  /** A review never touches what is said about the user's own request, whatever it reports. */
  lemma ReviewOnlyCosts(events: seq<Event>, u: Usage)
    ensures
      Run(events + [Reviewed(u)]) == Run(events).(totals := Run(events).totals.Plus(Spent(OfReview(u))))
  {
    hide *;
    SequenceIsLatest(events);
    LatestIsHighest(events);
    var all := events + [Reviewed(u)];
    RunStep(all);
    assert all[..|all| - 1] == events && all[|all| - 1] == Reviewed(u);
    ReviewStep(Run(events), u);
  }

  lemma ReviewStep(a: Account, u: Usage)
    requires a.lastSequence >= 0
    ensures Next(a, Reviewed(u)) == a.(totals := a.totals.Plus(Spent(OfReview(u))))
  {
    hide Spent, Totals.Plus;
  }

  // ---- Calibration

  /** A stored error is the stored actual input less the stored estimate, and the ratio goes with it. */
  predicate Consistent(a: Account) {
    && (a.calibration.actual.Some? <==> a.calibration.error.Some?)
    && (a.calibration.error.Some? ==>
          && a.estimate.input.Some?
          && a.calibration.error.value == a.calibration.actual.value - a.estimate.input.value)
    && (a.calibration.ratio.Some? <==> a.calibration.actual.Some? && a.calibration.actual.value != 0)
    && (a.calibration.ratio.Some? ==>
          a.calibration.ratio.value * a.calibration.actual.value as real == a.calibration.error.value as real)
  }

  lemma QuotientTimesDivisor(error: real, actual: real)
    requires actual != 0.0
    ensures error / actual * actual == error
  {
  }

  lemma UsageKeepsConsistency(a: Account, u: Usage)
    requires Consistent(a)
    ensures Consistent(AfterUsage(a, u))
  {
    hide Spent, Reported;
    var b := WithPlaceholder(a, u);
    assert Consistent(b);
    if Calibrates(b, u) && u.input.Or(0) != 0 {
      QuotientTimesDivisor((u.input.Or(0) - u.estimated.value) as real, u.input.Or(0) as real);
    }
  }

  lemma {:induction false} CalibrationIsConsistent(events: seq<Event>)
    ensures Consistent(Run(events))
  {
    if events != [] {
      var n := |events| - 1;
      CalibrationIsConsistent(events[..n]);
      var a := Run(events[..n]);
      match events[n]
      case Announced(_) =>
      case Used(u) => UsageKeepsConsistency(a, u);
      case Reviewed(u) => UsageKeepsConsistency(a, OfReview(u));
    }
  }

  /** The error of an estimate, absolute and per token of actual input */
  ghost predicate Measures(c: Calibration, actual: int, estimated: int) {
    && c.actual == Some(actual) && c.error == Some(actual - estimated)
    && (c.ratio.Some? <==> actual != 0)
    && (actual != 0 ==> c.ratio.value * actual as real == (actual - estimated) as real)
  }

  /** A usage whose budget was recorded tells how much input that estimate was for. */
  predicate Matches(u: Usage, estimate: Estimate) {
    && u.Usage? && u.hasUsage && u.budgetRecorded == Some(true) && u.inputAvailable
    && u.estimated.Some? && estimate.input == u.estimated
  }

  lemma StoredCalibration(a: Account, e: Event)
    requires a.lastSequence >= 0
    ensures
      var c := Next(a, e).calibration;
      if Claim(e).Some? && Claim(e).value >= a.lastSequence then c == UNCALIBRATED
      else if e.Used? && IsCurrent(WithPlaceholder(a, e.usage), e.usage) && Matches(e.usage, a.estimate) then
        Measures(c, Inputs(e), e.usage.estimated.value)
      else c == a.calibration
  {
    hide Spent, Reported;
    if e.Used? && e.usage.Usage? && e.usage.estimated.Some? && e.usage.input.Or(0) != 0 {
      var actual := e.usage.input.Or(0);
      QuotientTimesDivisor((actual - e.usage.estimated.value) as real, actual as real);
    }
  }

  /** After event `i`, event `j` reported on time how much input the estimate of event `i` was for. */
  predicate Measured(events: seq<Event>, i: nat, j: nat)
    requires i < |events| && Claim(events[i]).Some?
  {
    i < j && OnTime(events, j) && Matches(events[j].usage, EstimateOf(events[i]))
  }

  /** Nothing is stored unless a usage has matched the estimate that was last announced for the latest request. */
  lemma {:induction false} UncalibratedWithoutMatch(events: seq<Event>, i: nat)
    requires Decides(events, i) && forall j :: i < j < |events| ==> !Measured(events, i, j)
    ensures Run(events).calibration == UNCALIBRATED
  {
    hide Next, Claim, EstimateOf, Matches;
    var n := |events| - 1;
    CalibrationStep(events, i);
    if i < n {
      LatestOfPrefix(events, i);
      forall j | i < j < n ensures !Measured(events[..n], i, j) {
        assert !Measured(events, i, j);
        OnTimeOfPrefix(events, n, j);
      }
      UncalibratedWithoutMatch(events[..n], i);
    }
  }

  /** And then the last such usage is measured against that estimate. */
  lemma {:induction false} CalibrationIsOfLastMatch(events: seq<Event>, i: nat, j: nat)
    requires Decides(events, i) && Measured(events, i, j)
    requires forall k :: j < k < |events| ==> !Measured(events, i, k)
    ensures EstimateOf(events[i]).input.Some?
    ensures Measures(Run(events).calibration, Inputs(events[j]), EstimateOf(events[i]).input.value)
  {
    hide Next, Claim, EstimateOf, Measures, Inputs;
    var n := |events| - 1;
    CalibrationStep(events, i);
    if j < n {
      LatestOfPrefix(events, i);
      forall k | j <= k < n ensures Measured(events, i, k) <==> Measured(events[..n], i, k) {
        OnTimeOfPrefix(events, n, k);
      }
      CalibrationIsOfLastMatch(events[..n], i, j);
    }
  }

  /** What the last event makes of the calibration, once the latest request has been announced */
  lemma CalibrationStep(events: seq<Event>, i: nat)
    requires Decides(events, i)
    ensures
      var n := |events| - 1;
      var c := Run(events).calibration;
      if i == n then c == UNCALIBRATED
      else if Measured(events, i, n) then Measures(c, Inputs(events[n]), events[n].usage.estimated.value)
      else c == Run(events[..n]).calibration
  {
    hide Next, EstimateOf, Measures, Inputs, Matches;
    var n := |events| - 1;
    var before := events[..n];
    SequenceIsLatest(before);
    LatestIsHighest(before);
    StoredCalibration(Run(before), events[n]);
    if i < n {
      LatestOfPrefix(events, i);
      EstimateIsOfLatest(before, i);
      if events[n].Used? {
        OnTimeIsCurrent(events);
      }
    }
  }
}
