/** The yearly shrinking mint pool and the mints drawn from it. */
module MintPool {
  import opened Integers

  const MINT_POOL: nat := 500000 * PRECISION
  const YEAR_SHARES := 10
  const YEAR_BATCHES := 365
  const V3_FORK_BATCH := 1313

  /** What is left of the pool after `y` years. */
  function Left(y: nat): (r: nat)
    ensures r <= MINT_POOL
  {
    if y == 0 then MINT_POOL else Left(y - 1) - Left(y - 1) / YEAR_SHARES
  }

  function Year(y: nat): nat { Left(y) / YEAR_SHARES }

  function Day(y: nat): nat { Year(y) / YEAR_BATCHES }

  /** Nine tenths, as the legacy mint takes them. */
  function Nine(x: nat): nat { x / 10 * 9 }

  /** `n` times `d`. */
  function Times(d: nat, n: nat): nat {
    if n == 0 then 0 else Times(d, n - 1) + d
  }

  lemma {:induction false} TimesIsProduct(d: nat, n: nat)
    ensures Times(d, n) == d * n
  {
    if n > 0 {
      TimesIsProduct(d, n - 1);
      assert d * n == d * (n - 1) + d;
    }
  }

  lemma {:induction false} TimesMono(d: nat, e: nat, m: nat, n: nat)
    requires d <= e && m <= n
    ensures Times(d, m) <= Times(e, n)
  {
    if m < n {
      TimesMono(d, e, m, n - 1);
    } else if n > 0 {
      TimesMono(d, e, m - 1, n - 1);
    }
  }

  /** What `poolSizeUniversal` counts as minted by the end of a batch. */
  function Minted(b: nat): nat {
    MINT_POOL - Left(b / YEAR_BATCHES) + Times(Day(b / YEAR_BATCHES), b % YEAR_BATCHES)
  }

  function LegacyYears(y: nat): nat {
    if y == 0 then 0 else LegacyYears(y - 1) + Nine(Year(y - 1))
  }

  function MintedLegacy(b: nat): nat {
    LegacyYears(b / YEAR_BATCHES) + Times(Nine(Day(b / YEAR_BATCHES)), b % YEAR_BATCHES)
  }

  // ----- the pool shrinks

  lemma {:induction false} LeftShrinks(x: nat, y: nat)
    requires x <= y
    ensures Left(y) <= Left(x) <= MINT_POOL && Year(y) <= Year(x) && Day(y) <= Day(x)
    decreases y
  {
    if x < y {
      LeftShrinks(x, y - 1);
    } else if x > 0 {
      LeftShrinks(x - 1, y - 1);
    }
  }

  /** A year has room for a day's rate on every day. */
  lemma {:induction false} DaysOfYear(y: nat)
    ensures Times(Day(y), YEAR_BATCHES) <= Year(y) && Times(Nine(Day(y)), YEAR_BATCHES) <= Nine(Year(y))
  {
    TimesIsProduct(Day(y), YEAR_BATCHES);
    TimesIsProduct(Nine(Day(y)), YEAR_BATCHES);
  }

  lemma {:induction false} MintedBound(b: nat)
    ensures Minted(b) <= MINT_POOL
  {
    var y := b / YEAR_BATCHES;
    DaysOfYear(y);
    TimesMono(Day(y), Day(y), b % YEAR_BATCHES, YEAR_BATCHES);
  }

  /** The next batch is the next day of the same year, or the first of the next. */
  lemma {:induction false} NextBatch(b: nat)
    ensures var y, r := b / YEAR_BATCHES, b % YEAR_BATCHES;
            if r < YEAR_BATCHES - 1 then (b + 1) / YEAR_BATCHES == y && (b + 1) % YEAR_BATCHES == r + 1
            else r == YEAR_BATCHES - 1 && (b + 1) / YEAR_BATCHES == y + 1 && (b + 1) % YEAR_BATCHES == 0
  {
  }

  /** Each batch releases at least a day's rate of its own year, in both schedules. */
  lemma {:induction false} BatchReleases(b: nat)
    ensures Minted(b + 1) >= Minted(b) + Day(b / YEAR_BATCHES)
    ensures MintedLegacy(b + 1) >= MintedLegacy(b) + Nine(Day(b / YEAR_BATCHES))
  {
    NextBatch(b);
    DaysOfYear(b / YEAR_BATCHES);
  }

  /** A batch releases at least the rate of any later batch. */
  lemma {:induction false} LaterRate(i: nat, b: nat)
    requires i <= b
    ensures Minted(i) + Day(b / YEAR_BATCHES) <= Minted(i + 1)
    ensures MintedLegacy(i) + Nine(Day(b / YEAR_BATCHES)) <= MintedLegacy(i + 1)
  {
    BatchReleases(i);
    YearsOrdered(i, b);
  }

  /** What grows by at least `d` a step has grown by `n` times `d` after `n` steps. */
  lemma {:induction false} Growth(f: nat -> nat, d: nat, p: nat, b: nat)
    requires p <= b && forall i: nat | p <= i < b :: f(i) + d <= f(i + 1)
    ensures f(p) + Times(d, b - p) <= f(b)
    decreases b - p
  {
    if p < b {
      Growth(f, d, p + 1, b);
    }
  }

  /** Skipped batches are paid at the rate of the last one, which is never more than what the
      schedule released meanwhile. */
  lemma {:induction false} SkippedBatches(p: nat, b: nat)
    requires p <= b
    ensures Minted(p) + Times(Day(b / YEAR_BATCHES), b - p) <= Minted(b)
    ensures MintedLegacy(p) + Times(Nine(Day(b / YEAR_BATCHES)), b - p) <= MintedLegacy(b)
  {
    forall i: nat | p <= i < b
      ensures Minted(i) + Day(b / YEAR_BATCHES) <= Minted(i + 1)
      ensures MintedLegacy(i) + Nine(Day(b / YEAR_BATCHES)) <= MintedLegacy(i + 1)
    {
      LaterRate(i, b);
    }
    Growth(Minted, Day(b / YEAR_BATCHES), p, b);
    Growth(MintedLegacy, Nine(Day(b / YEAR_BATCHES)), p, b);
  }

  lemma {:induction false} YearsOrdered(p: nat, b: nat)
    requires p <= b
    ensures Day(b / YEAR_BATCHES) <= Day(p / YEAR_BATCHES) && Nine(Day(b / YEAR_BATCHES)) <= Nine(Day(p / YEAR_BATCHES))
  {
    LeftShrinks(p / YEAR_BATCHES, b / YEAR_BATCHES);
  }

  lemma {:induction false} LegacyYearsBelow(y: nat)
    ensures LegacyYears(y) <= MINT_POOL - Left(y)
  {
    if y > 0 {
      LegacyYearsBelow(y - 1);
      LeftShrinks(0, y - 1);
    }
  }

  /** The legacy schedule stays below the universal one. */
  lemma {:induction false} LegacyBelow(b: nat)
    ensures MintedLegacy(b) <= Minted(b)
  {
    var y, r := b / YEAR_BATCHES, b % YEAR_BATCHES;
    LegacyYearsBelow(y);
    TimesMono(Nine(Day(y)), Day(y), r, r);
  }

  // ----- runs of accepted mints

  datatype Option<+T> = None | Some(value: T)

  datatype Group = Legacy | Universal

  /** The last accepted mint and everything minted so far. */
  datatype Supply = Supply(group: Group, batch: nat, total: nat)

  /** The amount of the next mint, or nothing where the code refuses or panics.  Legacy mints
      never follow universal ones.  From the fork batch on the main network mints every batch,
      and tops the first universal mint up by what the legacy schedule had kept back. */
  function Amount(s: Supply, group: Group, batch: nat, mainnet: bool): (r: nat)
    requires s.batch < batch
  {
    var days := batch - s.batch;
    var rate := Day(batch / YEAR_BATCHES);
    match group
    case Legacy => if s.group.Universal? then 0 else Times(Nine(rate), days)
    case Universal =>
      if !mainnet || batch < V3_FORK_BATCH then Times(rate, days)
      else if s.batch + 1 != batch then 0
      else Times(rate, days) + TopUp(s, batch, mainnet)
  }

  /** What the legacy schedule had kept back before the mint that leaves it. */
  function TopUp(s: Supply, batch: nat, mainnet: bool): nat {
    if mainnet && batch >= V3_FORK_BATCH && s.group.Legacy? then
      LegacyBelow(s.batch);
      Minted(s.batch) - MintedLegacy(s.batch)
    else 0
  }

  datatype Mint = Mint(group: Group, batch: nat)

  /** Batches that do not advance, and mints without an amount, are not accepted. */
  function Accept(s: Supply, m: Mint, mainnet: bool): Supply {
    if m.batch <= s.batch then s
    else
      var amount := Amount(s, m.group, m.batch, mainnet);
      if amount == 0 then s else Supply(m.group, m.batch, s.total + amount)
  }

  function Run(ms: seq<Mint>, mainnet: bool): Supply
    decreases |ms|
  {
    if ms == [] then Supply(Legacy, 0, 0) else Accept(Run(ms[..|ms| - 1], mainnet), ms[|ms| - 1], mainnet)
  }

  ghost predicate Capped(s: Supply) {
    s.total <= (if s.group.Legacy? then MintedLegacy(s.batch) else Minted(s.batch))
  }

  lemma {:induction false} AcceptCapped(s: Supply, m: Mint, mainnet: bool)
    requires Capped(s)
    ensures Capped(Accept(s, m, mainnet))
  {
    if m.batch > s.batch {
      SkippedBatches(s.batch, m.batch);
      LegacyBelow(s.batch);
    }
  }

  /** For every sequence of mints, with days skipped, across years and across the switch of
      schedule: what was minted never exceeds what the pool of the last batch accounts for. */
  lemma {:induction false} EmissionCap(ms: seq<Mint>, mainnet: bool)
    ensures var s := Run(ms, mainnet);
            Capped(s) && s.total <= Minted(s.batch) <= MINT_POOL
    decreases |ms|
  {
    if ms != [] {
      EmissionCap(ms[..|ms| - 1], mainnet);
      AcceptCapped(Run(ms[..|ms| - 1], mainnet), ms[|ms| - 1], mainnet);
    }
    LegacyBelow(Run(ms, mainnet).batch);
    MintedBound(Run(ms, mainnet).batch);
  }

  // ----- what is left of the pool

  /** The pool as the kernel reports it, by the group of the last mint. */
  function PoolLeft(s: Supply): nat {
    MintedBound(s.batch);
    LegacyBelow(s.batch);
    MINT_POOL - if s.group.Legacy? then MintedLegacy(s.batch) else Minted(s.batch)
  }

  lemma {:induction false} TimesAdd(d: nat, m: nat, n: nat)
    ensures Times(d, m + n) == Times(d, m) + Times(d, n)
  {
    if n > 0 {
      TimesAdd(d, m, n - 1);
    }
  }

  lemma {:induction false} WithinYear(p: nat, b: nat)
    requires p < b && p / YEAR_BATCHES == b / YEAR_BATCHES
    ensures Minted(b) == Minted(p) + Times(Day(b / YEAR_BATCHES), b - p)
    ensures MintedLegacy(b) == MintedLegacy(p) + Times(Nine(Day(b / YEAR_BATCHES)), b - p)
  {
    TimesAdd(Day(b / YEAR_BATCHES), p % YEAR_BATCHES, b - p);
    TimesAdd(Nine(Day(b / YEAR_BATCHES)), p % YEAR_BATCHES, b - p);
  }

  /** Within a year, every mint takes exactly its amount out of the pool that is reported, in either
      schedule and where the main network leaves the legacy one. */
  lemma {:induction false} PoolDropsByAmount(s: Supply, m: Mint, mainnet: bool)
    requires Accept(s, m, mainnet) != s && s.batch / YEAR_BATCHES == m.batch / YEAR_BATCHES
    requires m.group == s.group || (mainnet && m.batch >= V3_FORK_BATCH)
    ensures s.batch < m.batch
    ensures PoolLeft(s) == PoolLeft(Accept(s, m, mainnet)) + Amount(s, m.group, m.batch, mainnet)
  {
    WithinYear(s.batch, m.batch);
    LegacyBelow(s.batch);
  }

  /** A tenth of the pool in a year, by the day: the figures of the first batches. */
  lemma {:induction false} FirstBatches()
    ensures MINT_POOL - Minted(0) == 50000000000000 && MINT_POOL - MintedLegacy(0) == 50000000000000
    ensures MINT_POOL - Minted(10) == 49863013698640 && MINT_POOL - MintedLegacy(10) == 49876712328830
    ensures MINT_POOL - Minted(365) == 45000000000000 && MINT_POOL - MintedLegacy(365) == 45500000000000
    ensures MINT_POOL - Minted(366) == 44987671232877 && MINT_POOL - MintedLegacy(366) == 45488904109592
  {
    var y := 0;
    assert Left(y) == 50000000000000 && LegacyYears(y) == 0;
    assert Left(y + 1) == 45000000000000 && LegacyYears(y + 1) == 4500000000000;
    assert Day(y) == 13698630136 && Day(y + 1) == 12328767123;
    TimesIsProduct(Day(y), 10);
    TimesIsProduct(Nine(Day(y)), 10);
    TimesIsProduct(Day(y + 1), 1);
    TimesIsProduct(Nine(Day(y + 1)), 1);
  }

  // ----- validating the last mint again

  /** Validated again, the last mint is rebuilt from its recorded amount, and topped up once more. */
  function Rebuilt(s: Supply, batch: nat, recorded: nat, mainnet: bool): nat {
    recorded + TopUp(s, batch, mainnet)
  }

  lemma {:induction false} LegacyStrictlyBelow(b: nat)
    requires b >= YEAR_BATCHES
    ensures MintedLegacy(b) < Minted(b)
  {
    var y, r := b / YEAR_BATCHES, b % YEAR_BATCHES;
    LegacyYearsStrict(y);
    TimesMono(Nine(Day(y)), Day(y), r, r);
  }

  lemma {:induction false} LegacyYearsStrict(y: nat)
    requires y >= 1
    ensures LegacyYears(y) < MINT_POOL - Left(y)
  {
    if y == 1 {
      assert Left(0) == MINT_POOL && LegacyYears(0) == 0;
    } else {
      LegacyYearsStrict(y - 1);
      LeftShrinks(0, y - 1);
    }
  }

  /** After every run, the next universal mint that is accepted is rebuilt with the recorded amount
      exactly if it is not the one that leaves the legacy schedule of the main network. */
  lemma {:induction false} RebuiltIff(ms: seq<Mint>, m: Mint, mainnet: bool)
    requires var s := Run(ms, mainnet); m.group.Universal? && Accept(s, m, mainnet) != s
    ensures var s := Run(ms, mainnet);
            && s.batch < m.batch
            && var recorded := Amount(s, m.group, m.batch, mainnet);
               Rebuilt(s, m.batch, recorded, mainnet) == recorded <==>
               !(mainnet && m.batch >= V3_FORK_BATCH && s.group.Legacy?)
  {
    var s := Run(ms, mainnet);
    if mainnet && m.batch >= V3_FORK_BATCH && s.group.Legacy? {
      LegacyStrictlyBelow(s.batch);
    }
  }

  /** A run that leaves the legacy schedule: its first universal mint is not rebuilt as recorded. */
  lemma {:induction false} SwitchExample()
    ensures var s, m := Run([Mint(Legacy, 1312)], true), Mint(Universal, 1313);
            && s.batch == 1312 && Accept(s, m, true) != s
            && var recorded := Amount(s, m.group, m.batch, true); Rebuilt(s, m.batch, recorded, true) != recorded
  {
    var first, m := Mint(Legacy, 1312), Mint(Universal, 1313);
    var start := Supply(Legacy, 0, 0);
    assert [first][..0] == [] && Run([first][..0], true) == start;
    DayThree();
    TimesIsProduct(Nine(Day(3)), 1312);
    assert Amount(start, Legacy, 1312, true) > 0;
    var s := Accept(start, first, true);
    assert Run([first], true) == s && s.batch == 1312 && s.group == Legacy;
    TimesIsProduct(Day(3), 1);
    assert Amount(s, Universal, 1313, true) > 0;
    RebuiltIff([first], m, true);
  }

  lemma {:induction false} DayThree()
    ensures Day(3) >= 10
  {
    assert Left(0) == MINT_POOL;
    assert Left(1) >= MINT_POOL / 2;
    assert Left(2) >= MINT_POOL / 4;
    assert Left(3) >= MINT_POOL / 8;
  }

  // ----- the code: loops over years, on `Integer`

  /** Every whole year before the batch took something from the pool; the code panics otherwise. */
  predicate YearsLeft(batch: nat) {
    batch < YEAR_BATCHES || Year(batch / YEAR_BATCHES - 1) > 0
  }

  /** So did the days of the batch's own year, if there are any. */
  predicate DaysLeft(batch: nat) {
    batch % YEAR_BATCHES > 0 ==> Day(batch / YEAR_BATCHES) > 0
  }

  /** The same for nine tenths. */
  predicate LegacyLeft(batch: nat) {
    && (batch < YEAR_BATCHES || Nine(Year(batch / YEAR_BATCHES - 1)) > 0)
    && (batch % YEAR_BATCHES > 0 ==> Nine(Day(batch / YEAR_BATCHES)) > 0)
  }

  lemma {:induction false} YearsPositive(batch: nat, y: nat)
    requires y < batch / YEAR_BATCHES
    ensures YearsLeft(batch) ==> Year(y) > 0
    ensures LegacyLeft(batch) ==> Year(y) > 0 && Nine(Year(y)) > 0
  {
    LeftShrinks(y, batch / YEAR_BATCHES - 1);
  }

  /** The pool is never used up. */
  lemma {:induction false} LeftPositive(y: nat)
    ensures Left(y) > 0
  {
    if y > 0 {
      LeftPositive(y - 1);
    }
  }

  /** A positive rate for some days of a year is positive and leaves something of the pool. */
  lemma {:induction false} PartOfYear(y: nat, d: nat, count: nat)
    requires 0 < d <= Day(y) && 0 < count < YEAR_BATCHES
    ensures d * count == Times(d, count) && 0 < Times(d, count) <= Year(y) <= Left(y)
  {
    TimesIsProduct(d, count);
    DaysOfYear(y);
    TimesMono(d, d, 1, count);
    TimesMono(d, Day(y), count, YEAR_BATCHES);
  }

  method PoolSizeUniversal(batch: nat) returns (size: nat)
    requires YearsLeft(batch) && DaysLeft(batch)
    ensures size == MINT_POOL - Minted(batch)
    ensures size > 0
  {
    var mint, pool := 0, MINT_POOL;
    for i := 0 to batch / YEAR_BATCHES
      invariant pool == Left(i) && mint == MINT_POOL - Left(i) && mint >= 0
    {
      YearsPositive(batch, i);
      var year := Div(pool, YEAR_SHARES);
      mint := Add(mint, year);
      pool := Sub(pool, year);
    }
    var day := Div(Div(pool, YEAR_SHARES), YEAR_BATCHES);
    var count := batch % YEAR_BATCHES;
    LeftPositive(batch / YEAR_BATCHES);
    if count > 0 {
      PartOfYear(batch / YEAR_BATCHES, day, count);
      mint := Add(mint, Mul(day, count));
    }
    if mint > 0 {
      return Sub(MINT_POOL, mint);
    }
    return MINT_POOL;
  }

  method PoolSizeLegacy(batch: nat) returns (size: nat)
    requires LegacyLeft(batch)
    ensures size == MINT_POOL - MintedLegacy(batch)
    ensures size >= MINT_POOL - Minted(batch)
  {
    LegacyBelow(batch);
    MintedBound(batch);
    var mint, pool := 0, MINT_POOL;
    for i := 0 to batch / YEAR_BATCHES
      invariant pool == Left(i) && mint == LegacyYears(i)
    {
      YearsPositive(batch, i);
      var year := Div(pool, YEAR_SHARES);
      mint := Add(mint, Mul(Div(year, 10), 9));
      pool := Sub(pool, year);
    }
    var day := Div(Div(pool, YEAR_SHARES), YEAR_BATCHES);
    var count := batch % YEAR_BATCHES;
    if count > 0 {
      PartOfYear(batch / YEAR_BATCHES, Nine(day), count);
      mint := Add(mint, Mul(Mul(Div(day, 10), 9), count));
    }
    if mint > 0 {
      return Sub(MINT_POOL, mint);
    }
    return MINT_POOL;
  }

  const HOUR := 3600000000000
  const TIME_BEGIN := 7
  const TIME_END := 9
  const PERIOD_FORK_BATCH := 72
  const FORK_TIME_BEGIN := 6
  const FORK_TIME_END := 18

  /** The rate of a batch's year. */
  method DailyRate(batch: nat) returns (total: nat)
    requires YearsLeft(batch)
    ensures total == Day(batch / YEAR_BATCHES)
  {
    var pool: int := MINT_POOL;
    for i := 0 to batch / YEAR_BATCHES
      invariant pool == Left(i)
    {
      YearsPositive(batch, i);
      pool := Sub(pool, Div(pool, YEAR_SHARES));
    }
    total := Div(Div(pool, YEAR_SHARES), YEAR_BATCHES);
  }

  function BatchAt(epoch: nat, ts: nat): nat {
    if ts <= epoch then 0 else (ts - epoch) / HOUR / 24
  }

  /** The hour of the day is between `begin` and `end`. */
  predicate InWindow(epoch: nat, ts: nat, begin: nat, end: nat) {
    ts > epoch && begin <= (ts - epoch) / HOUR % 24 <= end
  }

  /** The batch of a time and the amount it may mint: nothing outside the window or for a batch
      that is not new; the recorded amount again when only validating the last batch. */
  method CheckUniversalMintPossibility(epoch: nat, ts: nat, last: nat, lastAmount: nat, validateOnly: bool)
    returns (batch: nat, amount: nat)
    requires YearsLeft(BatchAt(epoch, ts))
    ensures var hours := if ts > epoch then (ts - epoch) / 3600000000000 else 0;
            batch == if 7 <= hours % 24 <= 9 && (last < hours / 24 || (validateOnly && last == hours / 24))
                     then hours / 24 else 0
    ensures batch > 0 && batch == last ==> amount == lastAmount
    ensures batch > last ==>
            amount == Times(Day(batch / YEAR_BATCHES), batch - last) && Minted(last) + amount <= Minted(batch)
    ensures batch == 0 ==> amount == 0
  {
    batch := BatchAt(epoch, ts);
    if batch < 1 || !InWindow(epoch, ts, TIME_BEGIN, TIME_END) {
      return 0, 0;
    }
    var total := DailyRate(batch);
    if batch < last {
      return 0, 0;
    }
    if batch == last {
      if validateOnly {
        return batch, lastAmount;
      }
      return 0, 0;
    }
    SkippedBatches(last, batch);
    TimesIsProduct(total, batch - last);
    amount := Mul(total, batch - last);
  }

  /** The same for the legacy schedule, whose window was wider in the first batches of the main
      network. */
  method CheckLegacyMintPossibility(epoch: nat, ts: nat, last: nat, lastAmount: nat, mainnet: bool, validateOnly: bool)
    returns (batch: nat, amount: nat)
    requires YearsLeft(BatchAt(epoch, ts))
    ensures var hours := if ts > epoch then (ts - epoch) / 3600000000000 else 0;
            var hour, wide := hours % 24, mainnet && hours / 24 < 72;
            batch == if (7 <= hour <= 9 || (wide && 6 <= hour <= 18)) &&
                        (last < hours / 24 || (validateOnly && last == hours / 24))
                     then hours / 24 else 0
    ensures batch > 0 && batch == last ==> amount == lastAmount
    ensures batch > last ==> amount == Times(Nine(Day(batch / YEAR_BATCHES)), batch - last) &&
                             MintedLegacy(last) + amount <= MintedLegacy(batch)
    ensures batch == 0 ==> amount == 0
  {
    batch := BatchAt(epoch, ts);
    if batch < 1 {
      return 0, 0;
    }
    var kmb, kme := TIME_BEGIN, TIME_END;
    if mainnet && batch < PERIOD_FORK_BATCH {
      kmb, kme := FORK_TIME_BEGIN, FORK_TIME_END;
    }
    if !InWindow(epoch, ts, kmb, kme) {
      return 0, 0;
    }
    var total := DailyRate(batch);
    var full := Mul(Div(total, 10), 9);
    if batch < last {
      return 0, 0;
    }
    if batch == last {
      if validateOnly {
        return batch, lastAmount;
      }
      return 0, 0;
    }
    SkippedBatches(last, batch);
    TimesIsProduct(full, batch - last);
    amount := Mul(full, batch - last);
  }

  /** The amount of a universal mint after the top-up, or nothing where the code panics: `prev` is
      the mint before it, which from the fork on has to be that of the day before. */
  method TryToSlashLegacyLightPool(prev: Supply, batch: nat, amount: nat, mainnet: bool) returns (r: Option<nat>)
    requires amount > 0 && YearsLeft(prev.batch) && DaysLeft(prev.batch) && LegacyLeft(prev.batch)
    ensures r.None? <==> mainnet && batch >= V3_FORK_BATCH && prev.batch + 1 != batch
    ensures r.Some? ==> r.value == amount + TopUp(prev, batch, mainnet)
  {
    if !mainnet || batch < V3_FORK_BATCH {
      return Some(amount);
    }
    if prev.batch + 1 != batch {
      return None;
    }
    if prev.group.Universal? {
      return Some(amount);
    }
    var legacy := PoolSizeLegacy(prev.batch);
    var universal := PoolSizeUniversal(prev.batch);
    LegacyStrictlyBelow(prev.batch);
    MintedBound(prev.batch);
    var slash := Sub(legacy, universal);
    return Some(Add(amount, slash));
  }

  /** The amount with which the last mint is rebuilt when its snapshot is validated again.  It is
      the recorded one exactly if the mint did not leave the legacy schedule of the main network. */
  method RebuildLastMint(epoch: nat, ts: nat, prev: Supply, last: nat, recorded: nat, mainnet: bool)
    returns (amount: Option<nat>)
    requires prev.batch < last == BatchAt(epoch, ts) && InWindow(epoch, ts, TIME_BEGIN, TIME_END)
    requires recorded == Amount(prev, Universal, last, mainnet) > 0
    requires YearsLeft(last) && YearsLeft(prev.batch) && DaysLeft(prev.batch) && LegacyLeft(prev.batch)
    ensures amount == Some(Rebuilt(prev, last, recorded, mainnet))
    ensures amount == Some(recorded) <==> !(mainnet && last >= V3_FORK_BATCH && prev.group.Legacy?)
  {
    var batch, again := CheckUniversalMintPossibility(epoch, ts, last, recorded, true);
    amount := TryToSlashLegacyLightPool(prev, batch, again, mainnet);
    if mainnet && last >= V3_FORK_BATCH && prev.group.Legacy? {
      LegacyStrictlyBelow(prev.batch);
    }
  }
}
