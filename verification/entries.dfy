/** Vector sizing for a port that both the AFU and the platform declare as a
    vector (afu_platform_config.py, the vector/vector branch of matchAfuPorts). */
module Entries {
  import opened Wrappers

  /** A `max-entries` value. `Unbounded` is the source's `sys.maxsize`
      sentinel, meaning that no explicit maximum was given. */
  datatype Limit = Finite(n: int) | Unbounded

  /** `x <= l`, with `Unbounded` above every integer. */
  predicate AtMost(x: int, l: Limit)
  {
    l.Unbounded? || x <= l.n
  }

  /** `a > b` on limits (`sys.maxsize > sys.maxsize` is false). */
  predicate Exceeds(a: Limit, b: Limit)
  {
    b.Finite? && (a.Unbounded? || a.n > b.n)
  }

  /** `a < x` for a limit and an integer. */
  predicate Below(a: Limit, x: int)
  {
    a.Finite? && a.n < x
  }

  /** `lo <= n <= hi`. */
  predicate Within(n: Limit, lo: int, hi: Limit)
  {
    !Below(n, lo) && !Exceeds(n, hi)
  }

  /** A port as the matcher sees it after canonicalization: `min-entries`
      and `max-entries` are always present, `default-entries` may be absent. */
  datatype Port = Port(
    cls: string,
    ifc: string,
    vector: bool,
    optional: bool,
    minEntries: int,
    maxEntries: Limit,
    defaultEntries: Option<int>)

  /** Why a port could not be matched. */
  datatype MatchError =
    | Unsatisfied(cls: string, ifc: string)
    | VectorExpected(cls: string, ifc: string)
    | ScalarExpected(cls: string, ifc: string)
    | AfuNeedsMoreEntries(cls: string, ifc: string)
    | PlatformFloorViolated(cls: string, ifc: string)

  /** The three sizing rules, tried in this order. */
  datatype Rule = AfuDefault | PlatformDefault | PlatformMax

  /** The first applicable rule: (a) the AFU states no maximum and its own
      default fits the platform's window; (b) the AFU states no maximum and
      the platform's default meets the AFU's minimum; (c) otherwise. */
  function SizingRule(afu: Port, plat: Port): Rule
  {
    if && afu.maxEntries.Unbounded?
       && afu.defaultEntries.Some?
       && afu.defaultEntries.value >= plat.minEntries
       && AtMost(afu.defaultEntries.value, plat.maxEntries)
    then AfuDefault
    else if && afu.maxEntries.Unbounded?
            && plat.defaultEntries.Some?
            && plat.defaultEntries.value >= afu.minEntries
    then PlatformDefault
    else PlatformMax
  }

  /** The size the selected rule proposes, before clamping. */
  function Proposed(afu: Port, plat: Port): Limit
  {
    match SizingRule(afu, plat)
    case AfuDefault => Finite(afu.defaultEntries.value)
    case PlatformDefault => Finite(plat.defaultEntries.value)
    case PlatformMax => plat.maxEntries
  }

  /** Lowers `n` to `max` when it exceeds it. */
  function Clamp(n: Limit, max: Limit): (c: Limit)
    ensures !Exceeds(c, max)
    ensures c == n || (c == max && Exceeds(n, max))
  {
    if Exceeds(n, max) then max else n
  }

  /** A port whose own default, when present, lies inside its own bounds. */
  predicate DefaultWithin(p: Port)
  {
    p.defaultEntries.Some? ==>
      p.minEntries <= p.defaultEntries.value && AtMost(p.defaultEntries.value, p.maxEntries)
  }

  /** Some entry count satisfies both sides' bounds. */
  predicate Feasible(afu: Port, plat: Port)
  {
    var lo := if afu.minEntries >= plat.minEntries then afu.minEntries else plat.minEntries;
    AtMost(lo, afu.maxEntries) && AtMost(lo, plat.maxEntries)
  }

  /** The `num-entries` chosen for a vector/vector pair, or the bound check
      that rejected it. The result respects the AFU's window and the
      platform's minimum; it respects the platform's maximum only when the
      platform's own default does (rule b never compares with it). */
  function ResolveEntries(afu: Port, plat: Port): (r: Result<Limit, MatchError>)
    ensures r.Success? ==> Within(r.value, afu.minEntries, afu.maxEntries)
    ensures r.Success? ==> !Below(r.value, plat.minEntries)
    ensures r.Success? && DefaultWithin(plat) ==> !Exceeds(r.value, plat.maxEntries)
    ensures r.Failure? <==>
      Below(Clamp(Proposed(afu, plat), afu.maxEntries), afu.minEntries) ||
      Below(Clamp(Proposed(afu, plat), afu.maxEntries), plat.minEntries)
    ensures Below(Clamp(Proposed(afu, plat), afu.maxEntries), afu.minEntries) ==>
      r == Failure(AfuNeedsMoreEntries(afu.cls, afu.ifc))
    ensures !Below(Clamp(Proposed(afu, plat), afu.maxEntries), afu.minEntries) &&
            Below(Clamp(Proposed(afu, plat), afu.maxEntries), plat.minEntries) ==>
      r == Failure(PlatformFloorViolated(afu.cls, afu.ifc))
  {
    var n := Clamp(Proposed(afu, plat), afu.maxEntries);
    if Below(n, afu.minEntries) then Failure(AfuNeedsMoreEntries(afu.cls, afu.ifc))
    else if Below(n, plat.minEntries) then Failure(PlatformFloorViolated(afu.cls, afu.ifc))
    else Success(n)
  }

  /** Rule (a): an AFU without a maximum whose default fits the platform's
      window gets exactly its default, or fails as needing more entries when
      that default is below its own minimum. */
  lemma RuleAChoosesAfuDefault(afu: Port, plat: Port)
    requires afu.maxEntries.Unbounded? && afu.defaultEntries.Some?
    requires plat.minEntries <= afu.defaultEntries.value && AtMost(afu.defaultEntries.value, plat.maxEntries)
    ensures ResolveEntries(afu, plat) ==
      if afu.defaultEntries.value < afu.minEntries then Failure(AfuNeedsMoreEntries(afu.cls, afu.ifc))
      else Success(Finite(afu.defaultEntries.value))
  {
  }

  /** Rule (b): when rule (a) does not apply, an AFU without a maximum gets
      the platform's default if that meets the AFU's minimum; the later check
      still refuses it when it is below the platform's own minimum. */
  lemma RuleBChoosesPlatformDefault(afu: Port, plat: Port)
    requires !(afu.defaultEntries.Some? && plat.minEntries <= afu.defaultEntries.value &&
               AtMost(afu.defaultEntries.value, plat.maxEntries))
    requires afu.maxEntries.Unbounded? && plat.defaultEntries.Some?
    requires plat.defaultEntries.value >= afu.minEntries
    ensures ResolveEntries(afu, plat) ==
      if plat.defaultEntries.value < plat.minEntries then Failure(PlatformFloorViolated(afu.cls, afu.ifc))
      else Success(Finite(plat.defaultEntries.value))
  {
  }

  /** Rule (c): in every other case the count is the platform's maximum,
      lowered to the AFU's maximum when it exceeds it, and then checked
      against the AFU's minimum first and the platform's minimum second. */
  lemma RuleCChoosesPlatformMax(afu: Port, plat: Port)
    requires !(afu.maxEntries.Unbounded? && afu.defaultEntries.Some? &&
               plat.minEntries <= afu.defaultEntries.value && AtMost(afu.defaultEntries.value, plat.maxEntries))
    requires !(afu.maxEntries.Unbounded? && plat.defaultEntries.Some? &&
               plat.defaultEntries.value >= afu.minEntries)
    ensures var n := if Exceeds(plat.maxEntries, afu.maxEntries) then afu.maxEntries else plat.maxEntries;
      ResolveEntries(afu, plat) ==
        if Below(n, afu.minEntries) then Failure(AfuNeedsMoreEntries(afu.cls, afu.ifc))
        else if Below(n, plat.minEntries) then Failure(PlatformFloorViolated(afu.cls, afu.ifc))
        else Success(n)
  {
  }

  /** With self-consistent descriptors the non-backtracking rule chain loses
      nothing: it succeeds exactly when some count fits both sides, and the
      count it picks fits both sides' full windows. */
  lemma ResolveComplete(afu: Port, plat: Port)
    requires DefaultWithin(afu) && DefaultWithin(plat)
    ensures ResolveEntries(afu, plat).Success? <==> Feasible(afu, plat)
    ensures ResolveEntries(afu, plat).Success? ==>
      Within(ResolveEntries(afu, plat).value, afu.minEntries, afu.maxEntries) &&
      Within(ResolveEntries(afu, plat).value, plat.minEntries, plat.maxEntries)
  {
  }

  /** Rule (a): AFU {min 1, no maximum, default 4} against platform
      {min 2, max 8} gives 4. */
  lemma RuleAExample()
    ensures ResolveEntries(
      Port("clk", "std", true, false, 1, Unbounded, Some(4)),
      Port("clk", "std", true, false, 2, Finite(8), None)) == Success(Finite(4))
  {
  }

  /** Rule (b): AFU {min 1, no maximum, no default} against platform
      {min 2, max 8, default 6} gives 6. */
  lemma RuleBExample()
    ensures ResolveEntries(
      Port("clk", "std", true, false, 1, Unbounded, None),
      Port("clk", "std", true, false, 2, Finite(8), Some(6))) == Success(Finite(6))
  {
  }

  /** Rule (c) then clamping: an AFU with maximum 3 against platform max 8 gets 3. */
  lemma ClampExample()
    ensures ResolveEntries(
      Port("clk", "std", true, false, 1, Finite(3), Some(2)),
      Port("clk", "std", true, false, 2, Finite(8), Some(6))) == Success(Finite(3))
  {
  }

  /** Rule (b) takes a platform default of 8 as is, although the platform's
      maximum is 4. */
  lemma PlatformDefaultIgnoresPlatformMax()
    ensures ResolveEntries(
      Port("v", "i", true, false, 1, Unbounded, None),
      Port("v", "i", true, false, 1, Finite(4), Some(8))) == Success(Finite(8))
  {
  }

  /** No backtracking: rule (b) picks a platform default below the platform's
      own minimum and the run fails, although 2..8 would fit both sides. */
  lemma NoBacktracking()
    ensures ResolveEntries(
      Port("v", "i", true, false, 1, Unbounded, None),
      Port("v", "i", true, false, 2, Finite(8), Some(1))) == Failure(PlatformFloorViolated("v", "i"))
    ensures Feasible(
      Port("v", "i", true, false, 1, Unbounded, None),
      Port("v", "i", true, false, 2, Finite(8), Some(1)))
  {
  }
}
