/** The game-state engine of the falling-words typing game: one state record
    and the five transitions the component's callbacks perform on it (spawn,
    fall tick, keystroke, reset, sound toggle), each taken as one atomic step.
    Audio side effects are returned as a list of cues instead of being played. */
module Game {
  import opened Wrappers
  import opened Sequences
  import opened Text

  /** The fixed vocabulary the spawner draws from. */
  const WordList: seq<string> :=
    ["react", "javascript", "game", "coding", "developer", "keyboard", "speed", "challenge"]

  /** A word has been missed once its position exceeds this percentage. */
  const Boundary: real := 90.0
  const InitialSpeed: real := 1.0
  /** Added to the fall speed on a tick at a score milestone. */
  const SpeedStep: real := 0.5
  /** The speed rises on ticks where the score is a positive multiple of this. */
  const Milestone: nat := 10

  /** One word on screen; `position` is the percentage of the screen fallen. */
  datatype FallingWord = FallingWord(word: string, position: real)

  /** The component's state: the five `useState` values, the sound flag and
      the one-shot `gameOverTriggered` latch. */
  datatype GameState = GameState(
    words: seq<FallingWord>,
    typed: string,
    score: nat,
    speed: real,
    gameOver: bool,
    latched: bool,
    soundEnabled: bool)

  /** The state the component mounts with. */
  const Start: GameState := GameState([], "", 0, InitialSpeed, false, false, false)

  /** Requests to the audio player; the engine never waits on them. */
  datatype Cue = PlayCorrect | PlayGameOver | StartAmbient | StopAmbient

  // ---------------------------------------------------------------- spawn

  /** The spawner's interval body, with the random draw given as `i`. It only
      runs while the game is not over. */
  function Spawn(s: GameState, i: nat): (r: GameState)
    requires i < |WordList|
    ensures s.gameOver ==> r == s
    ensures !s.gameOver ==> |r.words| == |s.words| + 1
    ensures !s.gameOver ==> r.words[..|s.words|] == s.words
    ensures !s.gameOver ==> r.words[|s.words|] == FallingWord(WordList[i], 0.0)
    ensures r.(words := s.words) == s
  {
    if s.gameOver then s
    else s.(words := s.words + [FallingWord(WordList[i], 0.0)])
  }

  // ----------------------------------------------------------------- tick

  /** A word moved down by `speed`. */
  function Moved(w: FallingWord, speed: real): FallingWord {
    w.(position := w.position + speed)
  }

  /** Every word moved down by `speed`, in the same order. */
  function Advance(ws: seq<FallingWord>, speed: real): (r: seq<FallingWord>)
    ensures |r| == |ws|
    ensures forall i :: 0 <= i < |ws| ==> r[i] == Moved(ws[i], speed)
  {
    seq(|ws|, i requires 0 <= i < |ws| => Moved(ws[i], speed))
  }

  predicate Crossed(w: FallingWord) {
    w.position > Boundary
  }

  /** The outcome of the latched filter: the words kept, and whether this
      filter fired the game-over transition. */
  datatype Culled = Culled(kept: seq<FallingWord>, fired: bool)

  /** The filter of the fall tick. Walking the list in order, a crossed word
      met while the latch is unset sets the latch and is dropped; every other
      word, including crossed words met after the latch is set, is kept. */
  function Cull(ws: seq<FallingWord>, latched: bool): (c: Culled)
    ensures c.fired <==> !latched && FirstIndex(ws, Crossed).Some?
    ensures c.fired ==> c.kept == RemoveAt(ws, FirstIndex(ws, Crossed).value)
    ensures !c.fired ==> c.kept == ws
  {
    if |ws| == 0 then Culled([], false)
    else if !latched && Crossed(ws[0]) then Culled(Cull(ws[1..], true).kept, true)
    else if latched then
      assert [ws[0]] + ws[1..] == ws;
      Culled([ws[0]] + Cull(ws[1..], true).kept, false)
    else
      var rest := Cull(ws[1..], false);
      assert [ws[0]] + ws[1..] == ws;
      FirstIndexCons(ws[0], ws[1..], Crossed);
      if rest.fired then
        RemoveAtCons(ws[0], ws[1..], FirstIndex(ws[1..], Crossed).value);
        Culled([ws[0]] + rest.kept, true)
      else Culled([ws[0]] + rest.kept, false)
  }

  /** The speed-up condition, evaluated on every tick. */
  predicate SpeedUpDue(score: nat) {
    score > 0 && score % Milestone == 0
  }

  /** The fall interval body: move every word, run the latched filter, and
      raise the speed at a score milestone. Nothing happens once the game is
      over, since the interval is not running then. */
  function Tick(s: GameState): (r: GameState)
    ensures s.gameOver ==> r == s
    ensures !s.gameOver ==> r.typed == s.typed && r.score == s.score && r.soundEnabled == s.soundEnabled
    ensures !s.gameOver ==> (r.speed == s.speed + SpeedStep <==> s.score > 0 && s.score % 10 == 0)
    ensures !s.gameOver ==> r.speed == s.speed || r.speed == s.speed + SpeedStep
    ensures !s.gameOver ==> r.latched == (s.latched || r.gameOver)
    ensures !s.gameOver ==>
      (r.gameOver <==> !s.latched && exists i :: 0 <= i < |s.words| && s.words[i].position + s.speed > 90.0)
    ensures !s.gameOver && !r.gameOver ==>
      |r.words| == |s.words| &&
      forall i :: 0 <= i < |s.words| ==>
        r.words[i].word == s.words[i].word && r.words[i].position == s.words[i].position + s.speed
    ensures !s.gameOver && r.gameOver ==>
      exists k :: 0 <= k < |s.words| && Crossed(Moved(s.words[k], s.speed))
        && (forall j :: 0 <= j < k ==> !Crossed(Moved(s.words[j], s.speed)))
        && r.words == RemoveAt(Advance(s.words, s.speed), k)
    ensures !s.gameOver && r.gameOver ==> |r.words| == |s.words| - 1
  {
    if s.gameOver then s
    else
      var moved := Advance(s.words, s.speed);
      var c := Cull(moved, s.latched);
      assert c.fired ==> var k := FirstIndex(moved, Crossed).value;
        Crossed(Moved(s.words[k], s.speed)) && c.kept == RemoveAt(moved, k);
      s.(words := c.kept,
         gameOver := s.gameOver || c.fired,
         latched := s.latched || c.fired,
         speed := if SpeedUpDue(s.score) then s.speed + SpeedStep else s.speed)
  }

  /** The audio requests of a tick: the ambient track is stopped when the
      game-over transition fires, and the game-over sound is played as well
      when sound is enabled. */
  function TickCues(s: GameState): (cues: seq<Cue>)
    ensures |cues| > 0 <==> !s.gameOver && Tick(s).gameOver
    ensures PlayGameOver in cues <==> !s.gameOver && Tick(s).gameOver && s.soundEnabled
    ensures cues == [] || cues == [StopAmbient] || cues == [StopAmbient, PlayGameOver]
  {
    var fired := !s.gameOver && Cull(Advance(s.words, s.speed), s.latched).fired;
    assert fired == (!s.gameOver && Tick(s).gameOver);
    if fired then
      [StopAmbient] + (if s.soundEnabled then [PlayGameOver] else [])
    else []
  }

  // ---------------------------------------------------------------- input

  /** A falling word answers the (already lower-cased) input when its
      lower-cased text is exactly that input. */
  predicate Matches(w: FallingWord, input: string) {
    Lower(w.word) == input
  }

  /** The index of the first word whose lower-cased text is exactly the
      lower-cased input, if any. */
  function MatchIndex(ws: seq<FallingWord>, raw: string): (r: Option<nat>)
    ensures r.Some? ==> r.value < |ws| && Lower(ws[r.value].word) == Lower(raw)
    ensures r.Some? ==> forall j :: 0 <= j < r.value ==> Lower(ws[j].word) != Lower(raw)
    ensures r.None? <==> forall j :: 0 <= j < |ws| ==> Lower(ws[j].word) != Lower(raw)
  {
    FirstIndex(ws, (w: FallingWord) => Matches(w, Lower(raw)))
  }

  /** The keystroke handler: ignored once the game is over; otherwise the
      lower-cased input is stored, and if it matches a word, the first such
      word is removed, the score goes up by one and the input is cleared. */
  function Input(s: GameState, raw: string): (r: GameState)
    ensures s.gameOver ==> r == s
    ensures r.speed == s.speed && r.gameOver == s.gameOver
    ensures r.latched == s.latched && r.soundEnabled == s.soundEnabled
    ensures !s.gameOver ==>
      (r.score == s.score + 1 <==> exists i :: 0 <= i < |s.words| && Lower(s.words[i].word) == Lower(raw))
    ensures r.score == s.score || r.score == s.score + 1
    ensures !s.gameOver && r.score == s.score ==> r.words == s.words && r.typed == Lower(raw)
    ensures r.score == s.score + 1 ==>
      r.typed == "" && |r.words| == |s.words| - 1 && multiset(r.words) <= multiset(s.words)
  {
    if s.gameOver then s
    else
      match MatchIndex(s.words, raw)
      case None => s.(typed := Lower(raw))
      case Some(k) =>
        assert Matches(s.words[k], Lower(raw));
        s.(words := RemoveAt(s.words, k), score := s.score + 1, typed := "")
  }

  /** The audio request of a keystroke: the correct-answer sound, when a word
      was caught and sound is enabled. */
  function InputCues(s: GameState, raw: string): (cues: seq<Cue>)
    ensures cues == [PlayCorrect] <==> s.soundEnabled && Input(s, raw).score == s.score + 1
    ensures cues == [] || cues == [PlayCorrect]
  {
    if !s.gameOver && s.soundEnabled && MatchIndex(s.words, raw).Some? then [PlayCorrect] else []
  }

  // -------------------------------------------------------- reset, toggle

  /** The "Play Again" handler: every game value back to its initial value;
      only the sound setting survives. */
  function Reset(s: GameState): (r: GameState)
    ensures r.(soundEnabled := Start.soundEnabled) == Start
    ensures r.soundEnabled == s.soundEnabled
  {
    GameState([], "", 0, InitialSpeed, false, false, s.soundEnabled)
  }

  /** Reset restarts the ambient track when sound is enabled. */
  function ResetCues(s: GameState): (cues: seq<Cue>)
    ensures cues == [StartAmbient] <==> Reset(s).soundEnabled
    ensures cues == [] <==> !Reset(s).soundEnabled
  {
    if s.soundEnabled then [StartAmbient] else []
  }

  /** The sound button: flips the sound flag and nothing else. */
  function ToggleSound(s: GameState): (r: GameState)
    ensures r.soundEnabled != s.soundEnabled
    ensures r.(soundEnabled := s.soundEnabled) == s
  {
    s.(soundEnabled := !s.soundEnabled)
  }

  /** Turning sound on starts the ambient track; turning it off stops it. */
  function ToggleCues(s: GameState): (cues: seq<Cue>)
    ensures cues == [StartAmbient] <==> ToggleSound(s).soundEnabled
    ensures cues == [StopAmbient] <==> !ToggleSound(s).soundEnabled
  {
    if !s.soundEnabled then [StartAmbient] else [StopAmbient]
  }
}
