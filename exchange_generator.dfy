/** ExchangeGeneratorService: every tick sends the next of the rate sets
    loaded at start-up to the exchange service, round robin. */
module ExchangeGenerator {
  import opened Wrappers
  import opened ExchangeRates

  /** The set updateRatesFallback sends when the exchange service fails. */
  function DefaultRates(): (rates: seq<ExchangeRateDto>)
    ensures |rates| == 3
    ensures rates[0].name == "RUB" && rates[0].value == 1.0
    ensures rates[1].name == "USD" && rates[1].value == 95.0
    ensures rates[2].name == "CNY" && rates[2].value == 13.5
  {
    [ExchangeRateDto("Рубль", "RUB", 1.0), ExchangeRateDto("Доллар", "USD", 95.00),
     ExchangeRateDto("Юань", "CNY", 13.50)]
  }

  /** The index after `k` ticks from `start` over `n` sets. */
  function IndexAfter(start: int, n: int, k: nat): int
    requires n > 0
  {
    if k == 0 then start else (IndexAfter(start, n, k - 1) + 1) % n
  }

  /** Round robin: from an index in range, `k` ticks advance it by `k`
      modulo the number of sets. */
  lemma {:induction false} IndexAfterIsModulo(start: int, n: int, k: nat)
    requires n > 0 && 0 <= start < n
    ensures IndexAfter(start, n, k) == (start + k) % n
  {
    if k > 0 {
      var x := start + (k - 1);
      var p := IndexAfter(start, n, k - 1);
      IndexAfterIsModulo(start, n, k - 1);
      assert p == x % n;
      assert IndexAfter(start, n, k) == (p + 1) % n;
      ModStep(x, n);
      assert x + 1 == start + k;
    }
  }

  /** One more tick: the remainder of x + 1 follows from that of x. */
  lemma ModStep(x: int, n: int)
    requires n > 0
    ensures (x % n + 1) % n == (x + 1) % n
  {
    var q, r := x / n, x % n;
    assert x == q * n + r;
    if r + 1 < n {
      ModOf(x + 1, n, q, r + 1);
      ModOf(r + 1, n, 0, r + 1);
    } else {
      assert (q + 1) * n == q * n + n;
      ModOf(x + 1, n, q + 1, 0);
      ModOf(r + 1, n, 1, 0);
    }
  }

  /** The remainder is the r of any x == q * n + r with 0 <= r < n. */
  lemma ModOf(x: int, n: int, q: int, r: int)
    requires n > 0 && 0 <= r < n && x == q * n + r
    ensures x % n == r
  {
    SameQuotient(x / n, q, n, x % n, r);
  }

  /** Euclidean division is unique. */
  lemma SameQuotient(q: int, q1: int, n: int, r: int, r1: int)
    requires n > 0 && 0 <= r < n && 0 <= r1 < n
    requires q * n + r == q1 * n + r1
    ensures q == q1 && r == r1
  {
    var d := q - q1;
    assert d * n == r1 - r;
    assert d == 0 by {
      if d > 0 {
        MulAtLeast(d, n);
      } else if d < 0 {
        MulAtLeast(-d, n);
      }
    }
  }

  lemma MulAtLeast(d: int, n: int)
    requires d >= 1 && n > 0
    ensures d * n >= n
  {
  }

  class ExchangeGeneratorService {
    var sets: Option<seq<seq<ExchangeRateDto>>>   // None: never loaded (null)
    var index: int                                // currentIndex
    var sent: seq<seq<ExchangeRateDto>>           // every updateRates call, in order

    /** The index stays within the loaded sets. */
    predicate Valid()
      reads this
    {
      0 <= index && (sets.Some? && |sets.value| > 0 ==> index < |sets.value|)
    }

    /** loadExchangeRates: the sets read from the classpath file. */
    constructor (loaded: Option<seq<seq<ExchangeRateDto>>>)
      ensures Valid()
      ensures sets == loaded && index == 0 && sent == []
    {
      sets := loaded;
      index := 0;
      sent := [];
    }

    /** generateAndUpdateRates: with no sets, nothing; otherwise the index
        moves on first, and then the set it pointed at is sent; `failure` is
        what updateRates raises, if it does. */
    method GenerateAndUpdateRates(failure: Option<string>) returns (o: Outcome<()>)
      requires Valid()
      modifies this`index, this`sent
      ensures Valid()
      ensures sets.None? || sets.value == [] ==> index == old(index) && sent == old(sent) && o == Returned(())
      ensures sets.Some? && sets.value != [] ==>
                index == (old(index) + 1) % |sets.value|
                && sent == old(sent) + [sets.value[old(index)]]
                && o == (if failure.Some? then Raised(failure.value) else Returned(()))
    {
      if sets.None? || sets.value == [] {
        return Returned(());
      }
      var i := index;
      index := (index + 1) % |sets.value|;
      var rates := sets.value[i];
      sent := sent + [rates];
      if failure.Some? {
        return Raised(failure.value);
      }
      o := Returned(());
    }

    /** updateRatesFallback: the default set is sent once; its own failure is
        swallowed. */
    method UpdateRatesFallback(failure: Option<string>)
      modifies this`sent
      ensures sent == old(sent) + [DefaultRates()]
    {
      sent := sent + [DefaultRates()];
      if failure.Some? {
        // logged and dropped
      }
    }
  }

  /** What `failures`' ticks send from index `start` over the sets `s`:
      each tick the set at its index, followed by the default set when
      updateRates raised on that tick and the circuit breaker took the
      fallback. */
  function TickLog(s: seq<seq<ExchangeRateDto>>, start: int, failures: seq<Option<string>>): seq<seq<ExchangeRateDto>>
    requires |s| > 0
  {
    if failures == [] then []
    else
      var k := |failures| - 1;
      TickLog(s, start, failures[..k]) + [s[(start + k) % |s|]]
        + (if failures[k].Some? then [DefaultRates()] else [])
  }

  /** The number of ticks on which updateRates raised. */
  function FailedTicks(failures: seq<Option<string>>): nat {
    if failures == [] then 0
    else FailedTicks(failures[..|failures| - 1]) + (if failures[|failures| - 1].Some? then 1 else 0)
  }

  /** One set per tick and one default set per failed tick. */
  lemma {:induction false} TickLogLength(s: seq<seq<ExchangeRateDto>>, start: int, failures: seq<Option<string>>)
    requires |s| > 0
    ensures |TickLog(s, start, failures)| == |failures| + FailedTicks(failures)
  {
    if failures != [] {
      TickLogLength(s, start, failures[..|failures| - 1]);
    }
  }

  /** Without failures the ticks send the sets round robin and nothing else. */
  lemma {:induction false} TickLogWithoutFailures(s: seq<seq<ExchangeRateDto>>, start: int, failures: seq<Option<string>>)
    requires |s| > 0
    requires forall j :: 0 <= j < |failures| ==> failures[j].None?
    ensures TickLog(s, start, failures) == seq(|failures|, j requires 0 <= j < |failures| => s[(start + j) % |s|])
  {
    if failures != [] {
      var k := |failures| - 1;
      TickLogWithoutFailures(s, start, failures[..k]);
      assert seq(k + 1, j requires 0 <= j < k + 1 => s[(start + j) % |s|])
             == seq(k, j requires 0 <= j < k => s[(start + j) % |s|]) + [s[(start + k) % |s|]];
    }
  }

  /** A failed first tick over sets [a, b] sends a and then the default set. */
  lemma FailedTickSendsDefaults(a: seq<ExchangeRateDto>, b: seq<ExchangeRateDto>)
    ensures TickLog([a, b], 0, [Some("down")]) == [a, DefaultRates()]
  {
    var f: seq<Option<string>> := [Some("down")];
    assert f[..0] == [];
  }

  /** The scheduler's ticks over loaded sets, one per entry of `failures`
      (what updateRates raises on that tick, if it does) and of
      `fallbackFailures` (what the fallback's own updateRates raises): each
      tick sends the set at the index, a failed tick then sends the default
      set, and the index ends as many steps further. */
  method ScheduledTicks(g: ExchangeGeneratorService, failures: seq<Option<string>>, fallbackFailures: seq<Option<string>>)
    requires g.Valid() && g.sets.Some? && g.sets.value != []
    requires |fallbackFailures| == |failures|
    modifies g`index, g`sent
    ensures g.Valid()
    ensures var s, start := g.sets.value, old(g.index);
            g.index == (start + |failures|) % |s|
            && g.sent == old(g.sent) + TickLog(s, start, failures)
  {
    var s, start := g.sets.value, g.index;
    var i := 0;
    while i < |failures|
      invariant 0 <= i <= |failures|
      invariant g.Valid() && g.sets == Some(s)
      invariant g.index == IndexAfter(start, |s|, i)
      invariant g.sent == old(g.sent) + TickLog(s, start, failures[..i])
    {
      IndexAfterIsModulo(start, |s|, i);
      var o := g.GenerateAndUpdateRates(failures[i]);
      if o.Raised? {
        g.UpdateRatesFallback(fallbackFailures[i]);
      }
      assert failures[..i + 1][..i] == failures[..i];
      i := i + 1;
    }
    assert failures[..i] == failures;
    IndexAfterIsModulo(start, |s|, i);
  }
}
