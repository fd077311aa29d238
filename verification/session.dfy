/** A play session as a sequence of events, each handled atomically, and the
    properties that hold across events: the state invariant, the one-shot
    game-over latch, and the monotonicity of score and speed between resets. */
module Session {
  import opened Sequences
  import opened Text
  import opened Game

  /** What can drive the engine: the spawn timer (with its random draw), the
      fall timer, a change of the text field, the two buttons. */
  datatype Event =
    | SpawnTimer(index: nat)
    | FallTimer
    | Keystroke(text: string)
    | PlayAgain
    | SoundButton

  /** The spawn draw is `Math.floor(Math.random() * wordList.length)`, always
      an index of the vocabulary. */
  predicate ValidEvent(e: Event) {
    e.SpawnTimer? ==> e.index < |WordList|
  }

  predicate ValidEvents(es: seq<Event>) {
    forall i :: 0 <= i < |es| ==> ValidEvent(es[i])
  }

  predicate NoReset(es: seq<Event>) {
    forall i :: 0 <= i < |es| ==> !es[i].PlayAgain?
  }

  /** One event handled. Only a tick sets the latch and only a reset clears
      it; score and speed never go down except on reset. */
  function Apply(s: GameState, e: Event): (r: GameState)
    requires ValidEvent(e)
    ensures !s.latched && r.latched ==> e.FallTimer?
    ensures s.latched && !r.latched ==> e.PlayAgain?
    ensures e.PlayAgain? ==> !r.latched && !r.gameOver && r.score == 0
    ensures !e.PlayAgain? ==> r.score >= s.score
    ensures !e.PlayAgain? && s.speed >= 0.0 ==> r.speed >= s.speed
  {
    match e
    case SpawnTimer(i) => Spawn(s, i)
    case FallTimer => Tick(s)
    case Keystroke(text) => Input(s, text)
    case PlayAgain => Reset(s)
    case SoundButton => ToggleSound(s)
  }

  /** The audio requests of one event. */
  function Cues(s: GameState, e: Event): seq<Cue> {
    match e
    case SpawnTimer(_) => []
    case FallTimer => TickCues(s)
    case Keystroke(text) => InputCues(s, text)
    case PlayAgain => ResetCues(s)
    case SoundButton => ToggleCues(s)
  }

  /** The state after handling the events in order. */
  function Run(s: GameState, es: seq<Event>): GameState
    requires ValidEvents(es)
    decreases |es|
  {
    if |es| == 0 then s else Run(Apply(s, es[0]), es[1..])
  }

  /** Handling `a + b` is handling `a`, then `b`. */
  lemma {:induction false} RunAppend(s: GameState, a: seq<Event>, b: seq<Event>)
    requires ValidEvents(a) && ValidEvents(b)
    ensures ValidEvents(a + b)
    ensures Run(s, a + b) == Run(Run(s, a), b)
    decreases |a|
  {
    assert ValidEvents(a + b) by {
      forall i | 0 <= i < |a + b| ensures ValidEvent((a + b)[i]) {
        if i >= |a| { assert (a + b)[i] == b[i - |a|]; }
      }
    }
    if |a| > 0 {
      assert (a + b)[1..] == a[1..] + b;
      RunAppend(Apply(s, a[0]), a[1..], b);
    } else {
      assert a + b == b;
    }
  }

  /** The invariant of every state reachable from mount:
      - the latch is set exactly when the game is over;
      - the speed is at least the initial speed;
      - every word comes from the vocabulary and has not risen above the top;
      - while the game runs, no word is past the boundary;
      - the stored input is lower-case. */
  predicate Consistent(s: GameState) {
    && s.latched == s.gameOver
    && s.speed >= InitialSpeed
    && (forall i :: 0 <= i < |s.words| ==> s.words[i].word in WordList && s.words[i].position >= 0.0)
    && (!s.gameOver ==> forall i :: 0 <= i < |s.words| ==> s.words[i].position <= Boundary)
    && IsLowerCase(s.typed)
  }

  /** An entry of a sub-multiset is an entry of the whole. */
  lemma SubMultisetEntries(ws: seq<FallingWord>, r: seq<FallingWord>)
    requires multiset(r) <= multiset(ws)
    ensures forall i :: 0 <= i < |r| ==> r[i] in ws
  {
    forall i | 0 <= i < |r| ensures r[i] in ws {
      assert r[i] in multiset(r);
    }
  }

  lemma SpawnPreservesConsistent(s: GameState, i: nat)
    requires Consistent(s) && i < |WordList|
    ensures Consistent(Spawn(s, i))
  {
    var r := Spawn(s, i);
    if !s.gameOver {
      forall j | 0 <= j < |r.words|
        ensures r.words[j].word in WordList && r.words[j].position >= 0.0
        ensures r.words[j].position <= Boundary
      {
        if j < |s.words| { assert r.words[j] == r.words[..|s.words|][j]; }
      }
    }
  }

  /** The words a tick keeps are vocabulary words at non-negative positions. */
  lemma TickKeepsVocabulary(s: GameState)
    requires Consistent(s) && !s.gameOver
    ensures forall j :: 0 <= j < |Tick(s).words| ==>
      Tick(s).words[j].word in WordList && Tick(s).words[j].position >= 0.0
  {
    var moved := Advance(s.words, s.speed);
    var c := Cull(moved, s.latched);
    assert Tick(s).words == c.kept;
    assert forall m :: 0 <= m < |moved| ==> moved[m].word in WordList && moved[m].position >= 0.0;
    if c.fired {
      SubMultisetEntries(moved, c.kept);
    }
  }

  lemma TickPreservesConsistent(s: GameState)
    requires Consistent(s)
    ensures Consistent(Tick(s))
  {
    if !s.gameOver {
      TickKeepsVocabulary(s);
      var r := Tick(s);
      if !r.gameOver {
        assert !s.latched;
        forall i | 0 <= i < |r.words| ensures r.words[i].position <= Boundary {
          assert r.words[i].position == s.words[i].position + s.speed;
        }
      }
    }
  }

  lemma InputPreservesConsistent(s: GameState, raw: string)
    requires Consistent(s)
    ensures Consistent(Input(s, raw))
  {
    var r := Input(s, raw);
    if r.score == s.score + 1 { SubMultisetEntries(s.words, r.words); }
  }

  /** Every event preserves the invariant. */
  lemma ApplyPreservesConsistent(s: GameState, e: Event)
    requires Consistent(s) && ValidEvent(e)
    ensures Consistent(Apply(s, e))
  {
    match e
    case SpawnTimer(i) => SpawnPreservesConsistent(s, i);
    case FallTimer => TickPreservesConsistent(s);
    case Keystroke(raw) => InputPreservesConsistent(s, raw);
    case PlayAgain =>
    case SoundButton =>
  }

  /** Every state reached from a consistent state is consistent; in
      particular every state reached from mount. */
  lemma {:induction false} RunPreservesConsistent(s: GameState, es: seq<Event>)
    requires Consistent(s) && ValidEvents(es)
    ensures Consistent(Run(s, es))
    decreases |es|
  {
    if |es| > 0 {
      ApplyPreservesConsistent(s, es[0]);
      RunPreservesConsistent(Apply(s, es[0]), es[1..]);
    }
  }

  lemma StartConsistent()
    ensures Consistent(Start)
  {
  }

  /** Whether handling `e` in state `s` fires the game-over transition. */
  predicate Fires(s: GameState, e: Event)
    requires ValidEvent(e)
  {
    !s.gameOver && Apply(s, e).gameOver
  }

  /** How many times the game-over transition fires over a run. */
  function FireCount(s: GameState, es: seq<Event>): nat
    requires ValidEvents(es)
    decreases |es|
  {
    if |es| == 0 then 0
    else (if Fires(s, es[0]) then 1 else 0) + FireCount(Apply(s, es[0]), es[1..])
  }

  /** Once over, the game stays frozen until a reset: spawns, ticks and
      keystrokes change nothing, and only the sound setting can change. */
  lemma {:induction false} GameOverFreezes(s: GameState, es: seq<Event>)
    requires s.gameOver && ValidEvents(es) && NoReset(es)
    ensures Run(s, es).(soundEnabled := s.soundEnabled) == s
    ensures FireCount(s, es) == 0
    decreases |es|
  {
    if |es| > 0 {
      var t := Apply(s, es[0]);
      assert t.(soundEnabled := s.soundEnabled) == s;
      GameOverFreezes(t, es[1..]);
    }
  }

  /** The game-over transition fires at most once between resets, however
      many words cross the boundary and on however many ticks, and never
      when the game is already over. */
  lemma {:induction false} GameOverFiresAtMostOnce(s: GameState, es: seq<Event>)
    requires Consistent(s) && ValidEvents(es) && NoReset(es)
    ensures FireCount(s, es) <= 1
    ensures s.gameOver ==> FireCount(s, es) == 0
    decreases |es|
  {
    if s.gameOver {
      GameOverFreezes(s, es);
    } else if |es| > 0 {
      var t := Apply(s, es[0]);
      ApplyPreservesConsistent(s, es[0]);
      GameOverFiresAtMostOnce(t, es[1..]);
    }
  }

  /** Between resets the score and the speed never go down. */
  lemma {:induction false} ScoreAndSpeedMonotone(s: GameState, es: seq<Event>)
    requires s.speed >= 0.0 && ValidEvents(es) && NoReset(es)
    ensures Run(s, es).score >= s.score
    ensures Run(s, es).speed >= s.speed
    decreases |es|
  {
    if |es| > 0 {
      ScoreAndSpeedMonotone(Apply(s, es[0]), es[1..]);
    }
  }
}
