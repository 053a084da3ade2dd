/** The value-level behaviour of a resource's stock: how much a harvest takes,
    and what a run of harvests takes in total. */
module Stock {

  /** The request a harvest makes when none is given. */
  const DefaultRequest: int := 1

  /** What one harvest takes: the request, or the whole amount if less is left. */
  function Harvested(amount: int, request: int): (h: int)
    ensures h <= request && h <= amount
    ensures h == request || h == amount
  {
    if request <= amount then request else amount
  }

  predicate CanHarvest(amount: int) { amount > 0 }

  predicate IsDepleted(amount: int) { amount <= 0 }

  /** Exactly one of `CanHarvest` and `IsDepleted` holds. */
  lemma CanHarvestIffNotDepleted(amount: int)
    ensures CanHarvest(amount) <==> !IsDepleted(amount)
  {
  }

  /** With a non-negative stock and request, a harvest takes between 0 and the
      request and never drives the stock negative. */
  lemma HarvestBounds(amount: int, request: int)
    requires 0 <= amount && 0 <= request
    ensures 0 <= Harvested(amount, request) <= request
    ensures 0 <= amount - Harvested(amount, request)
  {
  }

  /** A request of at least the stock empties it. */
  lemma HarvestEmpties(amount: int, request: int)
    requires 0 <= amount <= request
    ensures amount - Harvested(amount, request) == 0
    ensures IsDepleted(amount - Harvested(amount, request))
    ensures !CanHarvest(amount - Harvested(amount, request))
  {
  }

  /** A harvest from a depleted stock of zero takes nothing. */
  lemma HarvestDepleted(request: int)
    requires 0 <= request
    ensures Harvested(0, request) == 0
  {
  }

  /** The outcome of a run of harvests. */
  datatype Run = Run(total: int, remaining: int)

  /** Harvest `requests` in order from a stock of `amount`. */
  function HarvestRun(amount: int, requests: seq<int>): Run
    decreases |requests|
  {
    if requests == [] then Run(0, amount)
    else
      var h := Harvested(amount, requests[0]);
      var rest := HarvestRun(amount - h, requests[1..]);
      Run(h + rest.total, rest.remaining)
  }

  /** Nothing is created or lost: what was taken plus what is left is what
      there was. */
  lemma {:induction false} HarvestRunConserves(amount: int, requests: seq<int>)
    ensures HarvestRun(amount, requests).total + HarvestRun(amount, requests).remaining == amount
    decreases |requests|
  {
    if requests != [] {
      HarvestRunConserves(amount - Harvested(amount, requests[0]), requests[1..]);
    }
  }

  /** With non-negative requests, a non-negative stock stays non-negative and
      never grows. */
  lemma {:induction false} HarvestRunBounds(amount: int, requests: seq<int>)
    requires 0 <= amount
    requires forall i :: 0 <= i < |requests| ==> 0 <= requests[i]
    ensures 0 <= HarvestRun(amount, requests).remaining <= amount
    ensures 0 <= HarvestRun(amount, requests).total
    decreases |requests|
  {
    if requests != [] {
      HarvestBounds(amount, requests[0]);
      HarvestRunBounds(amount - Harvested(amount, requests[0]), requests[1..]);
    }
  }
}
