/** Properties of single transitions, stated against explicit indices rather
    than against the search and filter the transitions are built from. */
module Transitions {
  import opened Sequences
  import opened Text
  import opened Game

  /** When the latch is unset and word `k` is the first to pass the boundary
      after moving, the tick fires game-over and drops exactly that word;
      every other word is kept, moved by the speed, in its original order,
      even if it has also passed the boundary. */
  lemma TickRemovesFirstCrossing(s: GameState, k: nat)
    requires !s.gameOver && !s.latched
    requires k < |s.words| && s.words[k].position + s.speed > Boundary
    requires forall j :: 0 <= j < k ==> s.words[j].position + s.speed <= Boundary
    ensures Tick(s).gameOver && Tick(s).latched
    ensures |Tick(s).words| == |s.words| - 1
    ensures forall j :: 0 <= j < k ==> Tick(s).words[j] == Moved(s.words[j], s.speed)
    ensures forall j :: k <= j < |Tick(s).words| ==> Tick(s).words[j] == Moved(s.words[j + 1], s.speed)
  {
    var moved := Advance(s.words, s.speed);
    FirstIndexIs(moved, Crossed, k);
    var c := Cull(moved, false);
    assert c.fired && c.kept == RemoveAt(moved, k);
    assert Tick(s).words == c.kept;
  }

  /** With the latch already set, a tick removes nothing: every word is
      moved, including those past the boundary, and game-over is not set
      again. No run reaches a state with the latch set and the game running
      (`Session.Consistent` keeps the two equal); the case that matters, a
      latch set earlier in the same tick, is covered by `Game.Cull` and
      `TickRemovesFirstCrossing`. */
  lemma TickWhenLatchedRemovesNothing(s: GameState)
    requires !s.gameOver && s.latched
    ensures Tick(s).words == Advance(s.words, s.speed)
    ensures !Tick(s).gameOver && Tick(s).latched
  {
  }

  /** A tick that does not end the game never moves a word up the screen
      while the speed is non-negative: each word stays at its index, at or
      below where it was. */
  lemma TickNeverRaisesWords(s: GameState)
    requires s.speed >= 0.0
    ensures (s.gameOver || !Tick(s).gameOver) ==>
      |Tick(s).words| == |s.words| &&
      forall i :: 0 <= i < |s.words| ==> Tick(s).words[i].position >= s.words[i].position
  {
    if !s.gameOver && !Tick(s).gameOver {
      var r := Tick(s);
      forall i | 0 <= i < |s.words| ensures r.words[i].position >= s.words[i].position {
        assert r.words[i].position == s.words[i].position + s.speed;
      }
    }
  }

  /** On the tick that ends the game, with `k` the first word to pass the
      boundary, no word moves up the screen either: the words before `k`
      keep their index and the words after it move up one index, each at or
      below where it was. Every game-ending tick has such a `k` (the
      contract of `Game.Tick`). */
  lemma FiringTickNeverRaisesWords(s: GameState, k: nat)
    requires s.speed >= 0.0 && !s.gameOver && !s.latched
    requires k < |s.words| && s.words[k].position + s.speed > Boundary
    requires forall j :: 0 <= j < k ==> s.words[j].position + s.speed <= Boundary
    ensures Tick(s).gameOver
    ensures forall j :: 0 <= j < k ==> Tick(s).words[j].position >= s.words[j].position
    ensures forall j :: k <= j < |Tick(s).words| ==> Tick(s).words[j].position >= s.words[j + 1].position
  {
    TickRemovesFirstCrossing(s, k);
  }

  /** Typing removes exactly the first word whose lower-cased text equals the
      lower-cased input, even when later words have the same text. */
  lemma InputRemovesFirstMatch(s: GameState, raw: string, k: nat)
    requires !s.gameOver
    requires k < |s.words| && Lower(s.words[k].word) == Lower(raw)
    requires forall j :: 0 <= j < k ==> Lower(s.words[j].word) != Lower(raw)
    ensures Input(s, raw).words == RemoveAt(s.words, k)
    ensures Input(s, raw).score == s.score + 1
    ensures Input(s, raw).typed == ""
  {
  }

  /** Input is case-insensitive: two inputs with the same lower-case form have
      the same effect. */
  lemma InputCaseInsensitive(s: GameState, a: string, b: string)
    requires Lower(a) == Lower(b)
    ensures Input(s, a) == Input(s, b)
  {
  }

  /** An input whose length differs from every active word (a proper prefix,
      suffix or extension of one of them, say) catches nothing. */
  lemma InputOfOtherLengthCatchesNothing(s: GameState, raw: string)
    requires forall i :: 0 <= i < |s.words| ==> |s.words[i].word| != |raw|
    ensures Input(s, raw).words == s.words
    ensures Input(s, raw).score == s.score
  {
  }

  /** Reset forgets everything but the sound setting: resetting twice is
      resetting once, and from sound-off it yields the mount-time state. */
  lemma ResetIdempotent(s: GameState)
    ensures Reset(Reset(s)) == Reset(s)
    ensures !s.soundEnabled ==> Reset(s) == Start
  {
  }

  /** Toggling sound twice restores the state, and the cues of the two
      toggles undo each other. */
  lemma ToggleSoundInvolution(s: GameState)
    ensures ToggleSound(ToggleSound(s)) == s
    ensures ToggleCues(s) != ToggleCues(ToggleSound(s))
  {
  }
}
