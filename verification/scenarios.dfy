/** Concrete play scenarios: a missed word ending the game, catching words,
    the speed-up at a milestone, two words crossing in one tick, and the
    sound button. */
module Scenarios {
  import opened Game
  import opened Session

  /** `n` consecutive fall-timer firings. */
  function Ticks(n: nat): (es: seq<Event>)
    ensures |es| == n && ValidEvents(es)
    ensures forall i :: 0 <= i < n ==> es[i] == FallTimer
  {
    seq(n, _ => FallTimer)
  }

  /** A fresh game with one word on screen at position `p`. */
  function OneWord(w: string, p: real): GameState {
    Start.(words := [FallingWord(w, p)])
  }

  /** At the initial speed a single word falls one percentage point per tick
      for as long as it stays within the boundary. */
  lemma {:induction false} FallsOnePointPerTick(w: string, p: real, n: nat)
    requires 0.0 <= p && p + n as real <= Boundary
    ensures Run(OneWord(w, p), Ticks(n)) == OneWord(w, p + n as real)
    decreases n
  {
    if n > 0 {
      assert Tick(OneWord(w, p)) == OneWord(w, p + 1.0);
      assert Ticks(n)[1..] == Ticks(n - 1);
      FallsOnePointPerTick(w, p + 1.0, n - 1);
    }
  }

  /** Spawning "coding" and letting 91 ticks pass at speed 1 takes it to
      position 91, past the boundary: the game is over, the latch is set and
      the word is gone. */
  lemma MissedWordEndsGame()
    ensures ValidEvents([SpawnTimer(3)] + Ticks(91))
    ensures Run(Start, [SpawnTimer(3)] + Ticks(91)) == Start.(gameOver := true, latched := true)
  {
    var spawn: seq<Event> := [SpawnTimer(3)];
    var fall := Ticks(90);
    var last: seq<Event> := [FallTimer];
    assert Ticks(91) == fall + last;
    assert spawn + Ticks(91) == spawn + (fall + last);
    RunAppend(Start, spawn, fall + last);
    SpawnCoding();
    RunAppend(OneWord("coding", 0.0), fall, last);
    FallsOnePointPerTick("coding", 0.0, 90);
    CodingAtNinetyCrosses();
    assert Run(OneWord("coding", 90.0), last) == Tick(OneWord("coding", 90.0));
  }

  /** The spawn draw 3 puts "coding" on screen at the top. */
  lemma SpawnCoding()
    ensures ValidEvents([SpawnTimer(3)])
    ensures Run(Start, [SpawnTimer(3)]) == OneWord("coding", 0.0)
  {
  }

  /** The tick at position 90 drops the word and ends the game. */
  lemma CodingAtNinetyCrosses()
    ensures Tick(OneWord("coding", 90.0)) == Start.(gameOver := true, latched := true)
  {
    var s := OneWord("coding", 90.0);
    assert Crossed(Advance(s.words, s.speed)[0]);
  }

  /** Typing "react" with "react" and "game" on screen catches "react". */
  lemma CatchScenario()
    ensures
      var s := Start.(words := [FallingWord("react", 10.0), FallingWord("game", 4.0)]);
      Input(s, "react") == s.(words := [FallingWord("game", 4.0)], score := 1, typed := "")
  {
  }

  /** Upper-case input catches a lower-case word. */
  lemma CatchIgnoresCase()
    ensures
      var s := Start.(words := [FallingWord("game", 4.0)]);
      Input(s, "GaMe") == s.(words := [], score := 1, typed := "")
  {
  }

  /** With two words of the same text on screen, typing it removes only the
      earlier one. */
  lemma CatchRemovesOnlyFirstDuplicate()
    ensures
      var s := Start.(words := [FallingWord("game", 30.0), FallingWord("game", 6.0)]);
      Input(s, "game") == s.(words := [FallingWord("game", 6.0)], score := 1, typed := "")
  {
  }

  /** A prefix of an on-screen word is stored as typed text and catches nothing. */
  lemma PrefixCatchesNothing()
    ensures
      var s := Start.(words := [FallingWord("react", 10.0)]);
      Input(s, "Rea") == s.(typed := "rea")
  {
  }

  /** A tick at score 10 raises the speed from 1.0 to 1.5. */
  lemma SpeedUpAtMilestone()
    ensures Tick(Start.(score := 10)) == Start.(score := 10, speed := 1.5)
  {
  }

  /** The milestone check is made on every tick, not once per milestone:
      while the score stays at 10, each of `n` ticks adds another 0.5 to the
      speed. */
  lemma {:induction false} SpeedKeepsRisingAtMilestone(v: real, n: nat)
    ensures Run(Start.(score := 10, speed := v), Ticks(n)) == Start.(score := 10, speed := v + 0.5 * n as real)
    decreases n
  {
    if n > 0 {
      assert Tick(Start.(score := 10, speed := v)) == Start.(score := 10, speed := v + 0.5);
      assert Ticks(n)[1..] == Ticks(n - 1);
      SpeedKeepsRisingAtMilestone(v + 0.5, n - 1);
    }
  }

  /** Two words crossing in the same tick: only the first is removed; the
      second stays in the list past the boundary, since the latch is set. */
  lemma TwoCrossingsRemoveOnlyFirst()
    ensures
      var s := Start.(words := [FallingWord("game", 90.0), FallingWord("speed", 90.0)]);
      Tick(s) == s.(words := [FallingWord("speed", 91.0)], gameOver := true, latched := true)
  {
  }

  /** The sound button starts the ambient track from silence, and a second
      press stops it again. */
  lemma SoundButtonScenario()
    ensures ToggleSound(Start).soundEnabled && ToggleCues(Start) == [StartAmbient]
    ensures !ToggleSound(ToggleSound(Start)).soundEnabled
    ensures ToggleCues(ToggleSound(Start)) == [StopAmbient]
  {
  }
}
