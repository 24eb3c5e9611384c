/** The lemonade screen: a four-step tap cycle (tree, lemon, glass, empty glass).
    The screen keeps three Kotlin `Int`s -- the step, the number of squeezes this
    lemon needs, and the squeezes done so far -- and one click handler per step
    changes them. `Display` is the text/image/description selected for a step,
    `Next` is the effect of one tap, and `LemonadeApp.Tap` is the handler that
    updates the three fields in place. */
module Lemonade {

  /** Kotlin's `Int`: 32-bit two's complement. */
  newtype Int32 = x: int | -0x8000_0000 <= x < 0x8000_0000

  const MinInt32: Int32 := -0x8000_0000
  const MaxInt32: Int32 := 0x7fff_ffff

  /** Kotlin's `x++` on an `Int`: the successor modulo 2^32, which wraps at the
      top of the range. */
  function Inc(x: Int32): (r: Int32)
    ensures (r as int - x as int - 1) % 0x1_0000_0000 == 0
    ensures x < MaxInt32 ==> r as int == x as int + 1
    ensures x == MaxInt32 ==> r == MinInt32
  {
    if x == MaxInt32 then MinInt32 else x + 1
  }

  // ---------------------------------------------------------------------------
  // Display selection: the `LemonadeStep` chosen by `when (step)`

  /** `R.string` ids for the prompt; `EmptyText` is the `""` of the `else` branch. */
  datatype TextKey = TapLemonTree | TapLemon | TapLemonade | TapEmptyGlass | EmptyText

  /** `R.drawable` ids; `NoImage` is the `0` of the `else` branch. */
  datatype ImageKey = LemonTree | LemonSqueeze | LemonDrink | LemonRestart | NoImage

  /** `R.string` ids for the content description; `EmptyDescription` is `""`. */
  datatype DescriptionKey =
    | DescLemonTree | DescLemon | DescGlassOfLemonade | DescEmptyGlass | EmptyDescription

  /** What a `LemonadeStep` shows. Its click handler is `Next` for the same step. */
  datatype StepView = StepView(text: TextKey, image: ImageKey, contentDesc: DescriptionKey)

  const Blank := StepView(EmptyText, NoImage, EmptyDescription)

  /** The descriptor for `step`; any step outside 1..4 shows the blank one. */
  function Display(step: Int32): (v: StepView)
    ensures v == Blank <==> !(1 <= step <= 4)
    ensures v.text == EmptyText <==> v.image == NoImage
    ensures v.image == NoImage <==> v.contentDesc == EmptyDescription
  {
    match step
    case 1 => StepView(TapLemonTree, LemonTree, DescLemonTree)
    case 2 => StepView(TapLemon, LemonSqueeze, DescLemon)
    case 3 => StepView(TapLemonade, LemonDrink, DescGlassOfLemonade)
    case 4 => StepView(TapEmptyGlass, LemonRestart, DescEmptyGlass)
    case _ => Blank
  }

  /** Each of the four steps has its own text, its own image and its own description. */
  lemma DisplayDistinct(a: Int32, b: Int32)
    requires 1 <= a <= 4 && 1 <= b <= 4 && a != b
    ensures Display(a).text != Display(b).text
    ensures Display(a).image != Display(b).image
    ensures Display(a).contentDesc != Display(b).contentDesc
  {
  }

  // ---------------------------------------------------------------------------
  // The state and one tap, as values

  /** The three remembered integers of the screen. */
  datatype State = State(step: Int32, squeezeCount: Int32, currentSqueeze: Int32)

  /** A value `(2..4).random()` can return. */
  predicate IsDraw(draw: Int32) {
    2 <= draw <= 4
  }

  /** The invariant every reachable state keeps: a step of the cycle, a target in
      2..4, progress below the target, and no progress outside the lemon step. */
  predicate Invariant(s: State) {
    && 1 <= s.step <= 4
    && IsDraw(s.squeezeCount)
    && 0 <= s.currentSqueeze < s.squeezeCount
    && (s.step != 2 ==> s.currentSqueeze == 0)
  }

  /** The state the screen starts in, with `draw` as the first random target. */
  function Initial(draw: Int32): (s: State)
    requires IsDraw(draw)
    ensures Invariant(s) && s.step == 1 && s.currentSqueeze == 0
    ensures s.squeezeCount == draw
  {
    State(1, draw, 0)
  }

  /** One tap on the image: the click handler of the current step's descriptor.
      `draw` stands for the value `(2..4).random()` would return; only the
      empty-glass step uses it. */
  function Next(s: State, draw: Int32): (r: State)
    ensures Invariant(s) && IsDraw(draw) ==> Invariant(r) && r != s
    ensures !(1 <= s.step <= 4) ==> r == s
    ensures s.step != 4 ==> r.squeezeCount == s.squeezeCount
  {
    match s.step
    case 1 => s.(step := 2)
    case 2 =>
      var c := Inc(s.currentSqueeze);
      if c >= s.squeezeCount then s.(step := 3, currentSqueeze := 0)
      else s.(currentSqueeze := c)
    case 3 => s.(step := 4)
    case 4 => s.(step := 1, squeezeCount := draw)
    case _ => s
  }

  /** The taps in order, the i-th tap drawing `draws[i]` if it needs a random value. */
  function Run(s: State, draws: seq<Int32>): (r: State)
    ensures |draws| == 1 ==> r == Next(s, draws[0])
    decreases |draws|
  {
    if draws == [] then s else Run(Next(s, draws[0]), draws[1..])
  }

  predicate AllDraws(draws: seq<Int32>) {
    forall i :: 0 <= i < |draws| ==> IsDraw(draws[i])
  }

  // ---------------------------------------------------------------------------
  // Properties of one tap

  /** The tree: the step becomes the lemon, the counters are untouched. */
  lemma TapAtTree(s: State, draw: Int32)
    requires s.step == 1
    ensures Next(s, draw) == State(2, s.squeezeCount, s.currentSqueeze)
  {
  }

  /** The lemon: one more squeeze; reaching the target moves on to the glass and
      clears the count, otherwise the step stays. The target never changes.
      At the largest `Int`, `currentSqueeze++` wraps to the smallest one, which
      is below any larger target, so the step stays. */
  lemma TapAtLemon(s: State, draw: Int32)
    requires s.step == 2
    ensures Next(s, draw).squeezeCount == s.squeezeCount
    ensures s.currentSqueeze < MaxInt32 && s.currentSqueeze as int + 1 >= s.squeezeCount as int ==>
              Next(s, draw).step == 3 && Next(s, draw).currentSqueeze == 0
    ensures s.currentSqueeze < MaxInt32 && s.currentSqueeze as int + 1 < s.squeezeCount as int ==>
              Next(s, draw).step == 2 &&
              Next(s, draw).currentSqueeze as int == s.currentSqueeze as int + 1
    ensures s.currentSqueeze == MaxInt32 && s.squeezeCount > MinInt32 ==>
              Next(s, draw) == State(2, s.squeezeCount, MinInt32)
  {
  }

  /** The full glass: only the step changes. */
  lemma TapAtGlass(s: State, draw: Int32)
    requires s.step == 3
    ensures Next(s, draw) == State(4, s.squeezeCount, s.currentSqueeze)
  {
  }

  /** The empty glass: back to the tree with the fresh target; the count is not
      touched, and in a valid state it is already 0. */
  lemma TapAtEmptyGlass(s: State, draw: Int32)
    requires s.step == 4
    ensures Next(s, draw) == State(1, draw, s.currentSqueeze)
    ensures Invariant(s) && IsDraw(draw) ==>
              Next(s, draw) == State(1, draw, 0) && Invariant(Next(s, draw))
  {
  }

  /** Only the empty-glass tap consults the random source. */
  lemma DrawOnlyAtEmptyGlass(s: State, d1: Int32, d2: Int32)
    requires s.step != 4
    ensures Next(s, d1) == Next(s, d2)
  {
  }

  /** A tap leaves the state unchanged exactly when the step is outside the cycle,
      that is, exactly when the `else` handler runs. */
  lemma NoOpIffOutsideCycle(s: State, draw: Int32)
    ensures Next(s, draw) == s <==> !(1 <= s.step <= 4)
  {
  }

  /** Every tap keeps the invariant, so the `else` handler is never reached. */
  lemma NextPreservesInvariant(s: State, draw: Int32)
    requires Invariant(s) && IsDraw(draw)
    ensures Invariant(Next(s, draw))
    ensures Next(s, draw) != s
    ensures Display(Next(s, draw).step) != Blank
  {
  }

  // ---------------------------------------------------------------------------
  // Properties of tap sequences

  /** Tapping `a` then `b` is tapping `a + b`. */
  lemma {:induction false} RunAppend(s: State, a: seq<Int32>, b: seq<Int32>)
    ensures Run(s, a + b) == Run(Run(s, a), b)
    decreases |a|
  {
    if a == [] {
      assert a + b == b;
    } else {
      assert (a + b)[1..] == a[1..] + b;
      RunAppend(Next(s, a[0]), a[1..], b);
    }
  }

  /** Any sequence of taps from a valid state keeps it valid. */
  lemma {:induction false} RunPreservesInvariant(s: State, draws: seq<Int32>)
    requires Invariant(s) && AllDraws(draws)
    ensures Invariant(Run(s, draws))
    decreases |draws|
  {
    if draws != [] {
      NextPreservesInvariant(s, draws[0]);
      RunPreservesInvariant(Next(s, draws[0]), draws[1..]);
    }
  }

  /** Every state reached from the start by taps is valid. */
  lemma ReachableInvariant(first: Int32, draws: seq<Int32>)
    requires IsDraw(first) && AllDraws(draws)
    ensures Invariant(Run(Initial(first), draws))
  {
    RunPreservesInvariant(Initial(first), draws);
  }

  /** On the lemon, the remaining `squeezeCount - currentSqueeze` taps are exactly
      what it takes: fewer taps only add to the count, that many reach the glass.
      The random source is not consulted. */
  lemma {:induction false} Squeezing(s: State, draws: seq<Int32>)
    requires Invariant(s) && s.step == 2
    requires |draws| <= s.squeezeCount as int - s.currentSqueeze as int
    ensures |draws| < s.squeezeCount as int - s.currentSqueeze as int ==>
              Run(s, draws).step == 2 &&
              Run(s, draws).squeezeCount == s.squeezeCount &&
              Run(s, draws).currentSqueeze as int == s.currentSqueeze as int + |draws|
    ensures |draws| == s.squeezeCount as int - s.currentSqueeze as int ==>
              Run(s, draws) == State(3, s.squeezeCount, 0)
    decreases |draws|
  {
    if draws != [] {
      if s.currentSqueeze + 1 < s.squeezeCount {
        Squeezing(Next(s, draws[0]), draws[1..]);
      } else {
        assert draws[1..] == [];
      }
    }
  }

  /** Entering the lemon with no squeezes, exactly `squeezeCount` taps reach the
      glass and no earlier one leaves the lemon. */
  lemma SqueezeFromStart(s: State, draws: seq<Int32>)
    requires Invariant(s) && s.step == 2 && s.currentSqueeze == 0
    requires |draws| == s.squeezeCount as int
    ensures Run(s, draws) == State(3, s.squeezeCount, 0)
    ensures forall k :: 0 <= k < |draws| ==> Run(s, draws[..k]).step == 2
  {
    Squeezing(s, draws);
    forall k | 0 <= k < |draws|
      ensures Run(s, draws[..k]).step == 2
    {
      Squeezing(s, draws[..k]);
    }
  }

  /** The two taps after the lemon is squeezed: glass, then empty glass, which
      lands on the tree with the second tap's draw as the new target. */
  lemma AfterGlass(glass: State, taps: seq<Int32>)
    requires Invariant(glass) && glass.step == 3
    requires |taps| == 2 && IsDraw(taps[1])
    ensures Run(glass, taps[..1]).step == 4
    ensures Run(glass, taps) == State(1, taps[1], 0)
  {
    assert taps[..1][1..] == [];
    var empty := Next(glass, taps[0]);
    assert taps[1..][0] == taps[1] && taps[1..][1..] == [];
    assert Run(empty, taps[1..]) == Next(empty, taps[1]);
  }

  /** From the tree, a cycle takes `3 + squeezeCount` taps and ends back at the
      tree with the last tap's draw as the new target; no earlier tap returns to
      the tree. */
  lemma FullCycle(s: State, draws: seq<Int32>)
    requires Invariant(s) && s.step == 1 && AllDraws(draws)
    requires |draws| == 3 + s.squeezeCount as int
    ensures Run(s, draws) == State(1, draws[|draws| - 1], 0)
    ensures forall k :: 0 < k < |draws| ==> Run(s, draws[..k]).step != 1
  {
    var n := s.squeezeCount as int;
    var lemon := Next(s, draws[0]);
    var squeezes := draws[1..n + 1];
    var glass := State(3, s.squeezeCount, 0);
    Squeezing(lemon, squeezes);
    assert draws[1..] == squeezes + draws[n + 1..];
    RunAppend(lemon, squeezes, draws[n + 1..]);
    AfterGlass(glass, draws[n + 1..]);
    forall k | 0 < k < |draws|
      ensures Run(s, draws[..k]).step != 1
    {
      assert draws[..k][1..] == draws[1..k];
      if k <= n + 1 {
        Squeezing(lemon, draws[1..k]);
      } else {
        assert draws[1..k] == squeezes + draws[n + 1..][..1];
        RunAppend(lemon, squeezes, draws[n + 1..][..1]);
      }
    }
  }

  // ---------------------------------------------------------------------------
  // The screen's state, updated in place by its click handlers

  class LemonadeApp {
    var step: Int32
    var squeezeCount: Int32
    var currentSqueeze: Int32

    /** The three fields as a value. */
    function Snapshot(): State
      reads this
    {
      State(step, squeezeCount, currentSqueeze)
    }

    ghost predicate Valid()
      reads this
    {
      Invariant(Snapshot())
    }

    /** The screen's first composition: step 1, a random target, no squeezes. */
    constructor (draw: Int32)
      requires IsDraw(draw)
      ensures Snapshot() == Initial(draw)
      ensures Valid()
    {
      step := 1;
      squeezeCount := draw;
      currentSqueeze := 0;
    }

    /** What the screen shows now. */
    function Content(): (v: StepView)
      reads this
      ensures Valid() ==> v != Blank
    {
      Display(step)
    }

    /** A tap on the image runs the current step's click handler; `draw` is the
        value `(2..4).random()` returns when the handler asks for one. */
    method Tap(draw: Int32)
      requires IsDraw(draw)
      modifies this
      ensures Snapshot() == Next(old(Snapshot()), draw)
      ensures old(Valid()) ==> Valid()
    {
      if step == 1 {
        step := 2;
      } else if step == 2 {
        currentSqueeze := Inc(currentSqueeze);
        if currentSqueeze >= squeezeCount {
          step := 3;
          currentSqueeze := 0;
        }
      } else if step == 3 {
        step := 4;
      } else if step == 4 {
        step := 1;
        squeezeCount := draw;
      }
      ghost var was := old(Snapshot());
      if Invariant(was) {
        NextPreservesInvariant(was, draw);
      }
    }
  }
}
