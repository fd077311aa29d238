# Falling Words — game-state engine

A Dafny model of the game logic of the "Catch the Falling Words" typing game,
whose whole logic lives in one React component (`src/App.js`). Lifted out of
the hooks, the engine is a deterministic state machine over one record: the
falling words (text and position, in spawn order), the typed text, the score,
the fall speed, the game-over flag, the one-shot `gameOverTriggered` latch and
the sound flag. Five callbacks drive it, and each is modelled as one atomic,
pure transition:

- **spawn** (`Game.Spawn`): the 2-second interval appends a vocabulary word at
  position 0, unless the game is over;
- **tick** (`Game.Tick`): the 100 ms interval moves every word down by the
  speed, runs the latched filter (`Game.Cull`) that ends the game on the first
  word past 90, and raises the speed by 0.5 whenever the score is a positive
  multiple of 10;
- **keystroke** (`Game.Input`): lower-cases the text, and removes the first
  word equal to it, adds one to the score and clears the text;
- **Play Again** (`Game.Reset`) and the **sound button** (`Game.ToggleSound`).

Audio is not played but returned as cues (`Game.TickCues`, `Game.InputCues`,
`Game.ResetCues`, `Game.ToggleCues`). `Session` strings transitions into runs
of events and proves the properties that span events. `Scenarios` holds
concrete play-throughs.

Positions and speed are Dafny `real`s. The speed is always 1 plus a multiple
of 0.5, and every position is a sum of such speeds. JavaScript doubles hold
all of these values exactly, so real arithmetic matches the program.

Files: `wrappers.dfy` (option type), `sequences.dfy` (`findIndex` and removal
by index), `text.dfy` (lower-casing), `game.dfy` (state and transitions),
`transitions.dfy` (single-step properties), `session.dfy` (runs, invariant,
latch), `scenarios.dfy` (worked examples).

Two behaviours of the code differ from what a reader might expect, and the
model follows the code in both:
- Not every word that crosses the boundary is removed. The filter at
  `src/App.js:56-65` removes only the first crossing word met while the latch
  is unset. Any later crossing word in the same tick is kept.
  `Scenarios.TwoCrossingsRemoveOnlyFirst` shows this.
- The speed-up does not fire once per milestone. The check at
  `src/App.js:68-70` runs on every tick, and the score does not change on
  ticks. So while the score stays at 10, the speed rises by 0.5 every tick.
  `Scenarios.SpeedKeepsRisingAtMilestone` shows this.

## Model

| member | source | states |
|---|---|---|
| Game.Spawn | src/App.js:38-47 | when the game runs, exactly one `{word: wordList[i], position: 0}` is appended and the existing entries are untouched; when it is over, nothing changes; no other field ever changes |
| Game.Cull | src/App.js:56-65 | the latched filter fires exactly when the latch is unset and some word has crossed; it then drops exactly the first crossed word in list order, and otherwise keeps the list as it is |
| Game.Advance | src/App.js:55 | the moved list has the same length, and each entry is the old entry with the same text and its position increased by the speed |
| Game.Tick | src/App.js:49-74 | no-op once over; otherwise, on a tick that does not end the game, every word moves by the speed with its text kept and stays at its index; game-over is set iff the latch was unset and some word passes 90, and then the words are the moved words with exactly the first crossing one removed; the latch follows game-over; the speed rises by exactly 0.5 iff `score > 0 && score % 10 == 0`; typed text, score and sound are unchanged |
| Game.TickCues | src/App.js:57-61 | the ambient track is stopped, once, exactly on the tick that fires game-over, and the game-over sound is then played once iff sound is enabled; the cues are `[]`, `[StopAmbient]` or `[StopAmbient, PlayGameOver]` and nothing else |
| Game.Input | src/App.js:77-93 | ignored entirely once over; otherwise the score rises by one iff some word equals the lower-cased input, in which case one word is removed and the text cleared; else words and score are unchanged and the lower-cased input is stored; speed, flags and latch never change |
| Game.MatchIndex | src/App.js:83-85 | the index found is of a word whose lower-cased text is exactly the lower-cased input and no earlier word's is; there is none iff no word's is |
| Game.InputCues | src/App.js:87-88 | the correct-answer sound is requested iff sound is enabled and the keystroke caught a word |
| Game.Reset | src/App.js:96-102 | the result is the mount-time state of `src/App.js:20-27` except for the sound flag, which is kept |
| Game.ResetCues | src/App.js:104-107 | reset restarts the ambient track iff sound is enabled |
| Game.ToggleSound | src/App.js:29-36 | the sound flag is flipped and no other field changes |
| Game.ToggleCues | src/App.js:29-34 | the ambient track starts when sound turns on and stops when it turns off |
| Sequences.FirstIndex | src/App.js:83-85 | `findIndex`: the result satisfies the predicate and no earlier element does, and there is no result iff no element satisfies it |
| Sequences.RemoveAt | src/App.js:89 | removing index `i` keeps every other entry in order and removes exactly one occurrence of `xs[i]` from the multiset |
| Text.LowerChar | src/App.js:80 | the result is never an upper-case ASCII letter; upper-case letters move to their lower-case partner and every other character is kept |
| Text.Lower | src/App.js:80 | the lower-cased string has the same length and no upper-case ASCII letter |
| Text.LowerIdempotent | src/App.js:80-84 | lower-casing the already lower-cased input changes nothing |
| Text.LowerDistinguishesLengths | src/App.js:84 | strings of different lengths never compare equal after lower-casing |
| Transitions.TickRemovesFirstCrossing | src/App.js:53-65 | with the latch unset and word `k` the first to pass 90, the tick ends the game, sets the latch and removes word `k` alone; every other word is kept in order, moved by the speed, even if it also passed 90 |
| Transitions.TickWhenLatchedRemovesNothing | src/App.js:56-64 | with the latch already set, every word is kept and moved, and game-over is not raised again (a state no run reaches, since the latch and game-over stay equal) |
| Transitions.TickNeverRaisesWords | src/App.js:55 | a tick that does not end the game keeps every word at its index and never moves it up the screen |
| Transitions.FiringTickNeverRaisesWords | src/App.js:53-65 | on the tick that ends the game, with `k` the first crossing word, words before `k` keep their index and words after it move up one index, none of them moving up the screen |
| Transitions.InputRemovesFirstMatch | src/App.js:83-91 | when word `k` is the first whose lower-cased text equals the lower-cased input, exactly entry `k` is removed (later duplicates stay), the score rises by one and the text is cleared |
| Transitions.InputCaseInsensitive | src/App.js:80-85 | inputs that agree after lower-casing have the same effect |
| Transitions.InputOfOtherLengthCatchesNothing | src/App.js:83-85 | an input whose length differs from every active word, such as a proper substring or superstring, leaves words and score unchanged |
| Transitions.ResetIdempotent | src/App.js:96-102 | resetting twice equals resetting once, and with sound off reset yields the mount-time state |
| Transitions.ToggleSoundInvolution | src/App.js:29-36 | two toggles restore the state, and their cues differ |
| Session.Apply | src/App.js:27-102 | the latch is only set by a tick and only cleared by a reset; reset clears game-over, latch and score; no other event lowers the score or the speed |
| Session.StartConsistent | src/App.js:20-27 | the mount-time state satisfies the engine invariant |
| Session.SpawnPreservesConsistent | src/App.js:38-47 | a spawn keeps the invariant: the new word is from the vocabulary, at position 0, within the boundary |
| Session.TickKeepsVocabulary | src/App.js:53-65 | every word a tick keeps is a vocabulary word at a non-negative position |
| Session.TickPreservesConsistent | src/App.js:49-74 | a tick keeps the invariant: if it does not end the game, no moved word is past 90; if it does, the latch and game-over are set together |
| Session.InputPreservesConsistent | src/App.js:77-93 | a keystroke keeps the invariant: the stored text is lower-case and the words left are words that were there |
| Session.ApplyPreservesConsistent | src/App.js:38-102 | every event preserves the invariant: latch set iff game over, speed at least 1, words from the vocabulary at non-negative positions, no word past 90 while the game runs, stored text lower-case |
| Session.RunPreservesConsistent | src/App.js:20-102 | every state reached by any run from a consistent state, and so from mount, satisfies the invariant |
| Session.GameOverFreezes | src/App.js:38-93 | once over and until a reset, spawns, ticks and keystrokes change nothing; only the sound flag can change, and game-over does not fire again |
| Session.GameOverFiresAtMostOnce | src/App.js:57-59 | between resets the game-over transition fires at most once, and never after the game is over |
| Session.ScoreAndSpeedMonotone | src/App.js:68-90 | between resets neither the score nor the speed ever decreases |
| Scenarios.FallsOnePointPerTick | src/App.js:52-55 | at speed 1 a lone word falls exactly one point per tick while it stays within 90 |
| Scenarios.MissedWordEndsGame | src/App.js:38-65 | spawning "coding" and ticking 91 times at speed 1 ends the game with an empty list and the latch set |
| Scenarios.CodingAtNinetyCrosses | src/App.js:53-65 | a lone word at 90 passes the boundary on the next tick, which ends the game with an empty list and the latch set |
| Scenarios.CatchScenario | src/App.js:77-93 | typing "react" with "react" and "game" on screen leaves "game", score 1 and empty text |
| Scenarios.CatchIgnoresCase | src/App.js:80-84 | "GaMe" catches "game" |
| Scenarios.CatchRemovesOnlyFirstDuplicate | src/App.js:83-89 | with "game" twice on screen, typing it removes only the earlier one |
| Scenarios.PrefixCatchesNothing | src/App.js:80-85 | typing "Rea" with "react" on screen stores "rea" and catches nothing |
| Scenarios.SpeedUpAtMilestone | src/App.js:68-70 | a tick at score 10 raises the speed from 1 to 1.5 |
| Scenarios.SpeedKeepsRisingAtMilestone | src/App.js:68-74 | while the score stays at 10, each of `n` ticks adds 0.5, so the speed rises by `0.5 * n` |
| Scenarios.TwoCrossingsRemoveOnlyFirst | src/App.js:56-65 | two words crossing in one tick: the first is removed, the second stays at 91, and the game is over |
| Scenarios.SoundButtonScenario | src/App.js:29-36 | from silence the button starts the ambient track; a second press stops it |

## Left out

- Audio playback through Howler (`src/App.js:8-16`) is not modelled. Each transition instead returns the list of cues it would request.
- Rendering and JSX (`src/App.js:124-162`) are not modelled. Neither are input focus and the 50 ms focus timeout (`src/App.js:109-122`). They are presentation concerns.
- Timer scheduling is not modelled: the interval periods, cancelling and re-arming them in effect cleanup, and how the two intervals interleave. Each interval body is one atomic transition, and a run is any order of events. "The interval is not running once the game is over" becomes "the transition is a no-op once the game is over".
- `Math.random` is not modelled. The spawn draw is an explicit index parameter, and every valid event keeps it below the vocabulary size.
- React's asynchronous state updates are not modelled, and neither are stale closures. For example, `handleInputChange` reads `fallingWords` from its closure while removing through an updater. Every transition reads and writes one consistent snapshot.
- Text.Lower: only ASCII letters are lower-cased, whereas `toLowerCase` covers all of Unicode. All vocabulary words are lower-case ASCII.
- Session.ApplyPreservesConsistent: the invariant bounds the speed from below by 1. It does not state that the speed is exactly 1 plus a multiple of 0.5.
- Game.Input: its own contract says only that the new word list is a sub-multiset of the old one, one entry shorter. Which entry goes is stated exactly by `Transitions.InputRemovesFirstMatch`.
