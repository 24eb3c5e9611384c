# Lemonade: the tap state machine

The lemonade app is a single screen that takes the user through a four-step cycle.
In step 1 the user taps the lemon tree. In step 2 they squeeze the lemon a random
2 to 4 times. In step 3 they tap the glass of lemonade. In step 4 they tap the
empty glass to start again. The screen keeps three integers: `step`,
`squeezeCount` (how many squeezes this lemon needs) and `currentSqueeze` (squeezes
so far). For the current step it builds a `LemonadeStep` with a text, an image, a
content description and a click handler. The handler updates the three integers
in place.

This project models that state machine in one module, `Lemonade` (`lemonade.dfy`):

- `Display(step)` selects the text, image and description keys, as the `when (step)` expression does.
- `Next(state, draw)` gives the effect of one tap as a value. It covers all four handlers and the `else` handler, which does nothing. `draw` stands in for the value `(2..4).random()` returns.
- `Run(state, draws)` applies a sequence of taps.
- The class `LemonadeApp` has the three fields as mutable `Int32` fields. Its constructor is the first composition. Its `Tap` method is the click handler and updates the fields in place. `Tap` is proved to produce exactly `Next` of the old state.
- `Int32` models Kotlin's `Int`. `currentSqueeze++` wraps at the top of the range (`Inc`), so `Next` and `Tap` are total on every state the fields can hold, including states no tap can reach.

The invariant `Invariant` holds in every reachable state. It says that the step is
in 1..4, that the target is in 2..4, that `0 <= currentSqueeze < squeezeCount`, and
that `currentSqueeze` is 0 outside step 2. Because of it, the `else` handler is
never reached from the start state.

The target is drawn once at start (MainActivity.kt:64) and again on the
empty-glass→tree tap (MainActivity.kt:102). Progress is reset as soon as it
reaches the target (MainActivity.kt:82-84), so `currentSqueeze < squeezeCount`
holds in every reachable state.

## Model

| member | source | states |
|---|---|---|
| Lemonade.Inc | app/src/main/java/com/example/lemonade/MainActivity.kt:81 | `currentSqueeze++` on a 32-bit `Int`: the result is congruent to `x + 1` modulo 2^32; it is one more below the maximum and wraps to the minimum at it |
| Lemonade.Display | app/src/main/java/com/example/lemonade/MainActivity.kt:67-105 | the descriptor is blank (empty text, image 0, empty description) exactly when the step is outside 1..4; text, image and description are blank together |
| Lemonade.DisplayDistinct | app/src/main/java/com/example/lemonade/MainActivity.kt:67-99 | the four steps show pairwise different texts, images and descriptions |
| Lemonade.Initial | app/src/main/java/com/example/lemonade/MainActivity.kt:63-65 | the start state is step 1 with no squeezes, its target equals the draw, and it satisfies the invariant |
| Lemonade.TapAtTree | app/src/main/java/com/example/lemonade/MainActivity.kt:72-74 | a tap on the tree moves to step 2 and leaves the target and the count unchanged |
| Lemonade.TapAtLemon | app/src/main/java/com/example/lemonade/MainActivity.kt:80-85 | a tap on the lemon adds one squeeze; reaching the target moves to step 3 and resets the count to 0, otherwise the step stays 2; the target never changes; at the `Int` maximum the count wraps to the minimum and the step stays 2 |
| Lemonade.TapAtGlass | app/src/main/java/com/example/lemonade/MainActivity.kt:92-94 | a tap on the glass moves to step 4 and changes nothing else |
| Lemonade.TapAtEmptyGlass | app/src/main/java/com/example/lemonade/MainActivity.kt:100-103 | a tap on the empty glass moves to step 1 with the fresh draw as target and leaves the count unchanged; from a valid state the count is 0 and the result is valid |
| Lemonade.Next | app/src/main/java/com/example/lemonade/MainActivity.kt:67-105 | one tap from a valid state with a draw in 2..4 gives a valid, different state; outside steps 1..4 it changes nothing (the `else` handler); only step 4 changes the target |
| Lemonade.DrawOnlyAtEmptyGlass | app/src/main/java/com/example/lemonade/MainActivity.kt:64-102 | outside step 4 the result of a tap does not depend on the random value |
| Lemonade.NoOpIffOutsideCycle | app/src/main/java/com/example/lemonade/MainActivity.kt:67-105 | a tap leaves the state unchanged if and only if the step is outside 1..4 (the `else` handler) |
| Lemonade.NextPreservesInvariant | app/src/main/java/com/example/lemonade/MainActivity.kt:63-105 | from a valid state a tap with a draw in 2..4 gives a valid, different state that shows a non-blank descriptor, so the `else` handler is unreachable |
| Lemonade.RunAppend | app/src/main/java/com/example/lemonade/MainActivity.kt:67-105 | running taps `a` and then taps `b` equals running `a + b` |
| Lemonade.RunPreservesInvariant | app/src/main/java/com/example/lemonade/MainActivity.kt:63-105 | any sequence of taps with draws in 2..4 keeps the invariant |
| Lemonade.ReachableInvariant | app/src/main/java/com/example/lemonade/MainActivity.kt:63-105 | every state reached from the start state by taps satisfies the invariant |
| Lemonade.Squeezing | app/src/main/java/com/example/lemonade/MainActivity.kt:80-85 | in step 2, fewer than `squeezeCount - currentSqueeze` taps only add to the count, and exactly that many reach step 3 with the count reset and the target kept |
| Lemonade.SqueezeFromStart | app/src/main/java/com/example/lemonade/MainActivity.kt:81-84 | entering step 2 with count 0, exactly `squeezeCount` taps reach step 3, and every shorter prefix is still in step 2 |
| Lemonade.AfterGlass | app/src/main/java/com/example/lemonade/MainActivity.kt:92-103 | from step 3, one tap reaches step 4 and two taps reach step 1 with the second draw as target |
| Lemonade.FullCycle | app/src/main/java/com/example/lemonade/MainActivity.kt:63-105 | from step 1, a full cycle is `3 + squeezeCount` taps; it ends at step 1 with count 0 and the last draw as the new target, and no shorter prefix returns to step 1 |
| Lemonade.LemonadeApp.constructor | app/src/main/java/com/example/lemonade/MainActivity.kt:63-65 | the fields start as the start state for the given draw and satisfy the invariant |
| Lemonade.LemonadeApp.Content | app/src/main/java/com/example/lemonade/MainActivity.kt:67-106 | the descriptor for the current step; it is never blank while the invariant holds |
| Lemonade.LemonadeApp.Tap | app/src/main/java/com/example/lemonade/MainActivity.kt:67-105 | the click handler updates the three fields in place to exactly `Next` of the old state and keeps the invariant |

## Left out

- The Compose UI is not modelled: `LemonadeScreen`, layout, colours, padding, the ripple, the press-scale animation and the `isPressed` toggle (MainActivity.kt:123-198). None of it changes the machine's state.
- `MainActivity.onCreate` and `LemonadeTheme` (MainActivity.kt:31-58) are not modelled. They are framework lifecycle and theming.
- `stringResource`, `painterResource` and the `R.*` ids are foreign resource lookups. They appear only as opaque keys (`TextKey`, `ImageKey`, `DescriptionKey`). The blank keys stand for the `""`/`0` of the `else` descriptor.
- `(2..4).random()` is an injected `draw` argument constrained to 2..4. Uniformity and independence across cycles are distribution claims and are not stated.
- `remember`/`mutableIntStateOf` recomposition is not modelled. The three values are plain fields of one object. A tap runs the handler of the descriptor built for the current step, which is the step read when `Tap` starts.
- The `onImageClick` field of `LemonadeStep` (MainActivity.kt:120) is not stored in `StepView`. The handler a descriptor carries is `Next` for the same step.
