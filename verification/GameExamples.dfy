/** Four reachable trouble spots: a word placed while its text is on the screen, the submission of a text two words
    have, a word placed while the thread of a typed one that reads the same has still to exit, and a cleanup that
    never returns. */
module GameExamples {
  import opened Bytes
  import opened Game
  import opened GameLocks
  import opened GameProgress
  import opened GameIndex
  import opened GameStale
  import opened GamePlay

  /** One word in the list, the smallest game area. */
  const TINY := Config([['a']], MIN_HEIGHT)

  // ---------- the first word ----------

  /** Words on screen: slot 0 holds "a", its thread has not moved yet; every other slot is unused. */
  predicate FirstWord(s: State) {
    && |s.slots| == MAX_WORDS && s.threads == [Thread(0, AtPoll(Top))]
    && s.slots[0] == Slot(['a'], 0, true, false, Normal, Some(0), Some(0))
    && (forall j :: 0 < j < MAX_WORDS ==> s.slots[j] == EMPTY_SLOT)
    && s.locks == FREE && !s.game.over && !s.signalled && s.game.table == {['a']}
  }

  /** The first pass of the loop spawns "a" and comes back to the top. */
  lemma FirstPass(c: Config) returns (e: State)
    requires c == TINY
    ensures Reaches(c, InitialState(), e) && PlayInv(c, e) && FirstWord(e)
    ensures e.main == Main(AtKeys(LoopTop), false, [])
  {
    var s := InitialState();
    InitInv();
    assert Truncated(['a'], 29) == ['a'] && c.dict[0] == ['a'];
    e := WordCanBeSpawned(c, s, 0, 0, Normal);
  }

  // ---------- the examples ----------

  /** The fallback after too many tries places the only word of the list a second time: a reachable state
      from which StaleSpawnLosesWord leads to a word on the screen that the table has lost. */
  lemma StalePlaceReachable() returns (s: State)
    ensures Reaches(TINY, InitialState(), s) && PlayInv(TINY, s) && s.main.pc == AtPick(Place(1, ['a']))
    ensures Held(s.main.pc, s.threads, s.slots[0], 0) && s.slots[0].text == ['a'] && SecondPlace(s)
  {
    var c := TINY;
    var o := InitialState();
    var s0 := FirstPass(c);
    var s1 := KeysPass(c, s0);
    ReachesTrans(c, o, s0, s1);
    var s2 := TimerPass(c, s1);
    ReachesTrans(c, o, s1, s2);
    s := PickSecond(c, o, s2);
  }

  lemma PickSecond(c: Config, o: State, s: State) returns (e: State)
    requires c == TINY && Reaches(c, o, s) && PlayInv(c, s) && FirstWord(s)
    requires s.main == Main(AtPick(SpawnWant), false, [])
    ensures Reaches(c, o, e) && PlayInv(c, e) && SecondPlace(e)
  {
    var s1 := PickStep(c, s, SpawnWant, ANY).value;
    MainMoves(c, o, s, ANY, s1);
    assert !IsFree(s1.slots[0]) && IsFree(s1.slots[1]);
    var s2 := PickStep(c, s1, SpawnIn, ANY).value;
    assert s2.slots == s1.slots;
    MainMoves(c, o, s1, ANY, s2);
    var s3 := PickStep(c, s2, Pick(1, 0), ANY).value;
    MainMoves(c, o, s2, ANY, s3);
    var s4 := PickStep(c, s3, LookWant(1, 1, ['a']), ANY).value;
    MainMoves(c, o, s3, ANY, s4);
    var s5 := PickStep(c, s4, LookIn(1, 1, ['a']), ANY).value;
    MainMoves(c, o, s4, ANY, s5);
    e := PickStep(c, s5, Pick(1, 1), ANY).value;
    MainMoves(c, o, s5, ANY, e);
  }

  // ---------- the fallback, and then the text of two words is typed ----------

  /** The fallback after too many tries has placed "a" in slot 1 while slot 0 shows it. */
  predicate SecondPlace(s: State) {
    && |s.slots| == MAX_WORDS && s.threads == [Thread(0, AtPoll(Top))]
    && s.main == Main(AtPick(Place(1, ['a'])), false, [])
    && s.slots[0] == Slot(['a'], 0, true, false, Normal, Some(0), Some(0))
    && (forall j :: 0 < j < MAX_WORDS ==> s.slots[j] == EMPTY_SLOT)
    && s.locks == FREE.(words := MainThread) && !s.game.over && !s.signalled
  }

  /** Both words start to fall. */
  lemma StartSecond(c: Config, s: State) returns (e: State)
    requires c == TINY && PlayInv(c, s) && SecondPlace(s)
    ensures Reaches(c, s, e) && PlayInv(c, e) && Calm(e) && Matches(e.slots, ['a'], 0) && Matches(e.slots, ['a'], 1)
    ensures e.main == Main(AtDraw(ScreenWant, false), false, [])
    ensures e.threads == [Thread(0, AtPoll(Top)), Thread(1, AtPoll(Top))]
  {
    var s1 := PlacedState(c, s, 1, ['a'], ANY);
    e := FinishSpawn(c, s1, 1);
    ReachesTrans(c, s, s1, e);
  }

  /** The loop goes round, and the submitted line is looked up. */
  lemma SearchA(c: Config, s: State) returns (e: State)
    requires PlayInv(c, s) && Calm(s) && s.main == Main(AtDraw(ScreenWant, false), false, [])
    ensures Reaches(c, s, e) && PlayInv(c, e) && e.main == Main(AtSubmit(SubmitIn), false, ['a'])
    ensures e.slots == s.slots && e.threads == s.threads && e.game == s.game && e.signalled == s.signalled
  {
    ReachesSelf(c, s);
    var s1 := BackToTop(c, s, s);
    var s2 := TypeLine(c, s1, ['a']);
    ReachesTrans(c, s, s1, s2);
    e := SubmitStep(s2, SubmitWant).value;
    MainMoves(c, s, s2, ANY, e);
  }

  lemma TwinTyped(c: Config, s: State) returns (e: State)
    requires c == TINY && PlayInv(c, s) && SecondPlace(s)
    ensures Reaches(c, s, e) && PlayInv(c, e) && e.main == Main(AtSubmit(SubmitIn), false, ['a'])
    ensures Matches(e.slots, ['a'], 0) && Matches(e.slots, ['a'], 1) && NoSignal(e) && !e.game.over
  {
    var m := StartSecond(c, s);
    e := SearchA(c, m);
    ReachesTrans(c, s, m, e);
  }

  /** A reachable state of a game that is on, no signal sent, in which TypingTwinLosesWord applies. */
  lemma TwinTypedReachable() returns (s: State)
    ensures Reaches(TINY, InitialState(), s) && PlayInv(TINY, s) && s.main.pc == AtSubmit(SubmitIn)
    ensures s.main.input == ['a'] && Matches(s.slots, ['a'], 0) && Matches(s.slots, ['a'], 1)
    ensures NoSignal(s) && !s.game.over
  {
    var m := StalePlaceReachable();
    s := TwinTyped(TINY, m);
    ReachesTrans(TINY, InitialState(), m, s);
  }

  // ---------- a signal, and a cleanup that never returns ----------

  lemma Interrupted() returns (s: State)
    ensures Reaches(TINY, InitialState(), s) && PlayInv(TINY, s) && s.main.pc == AtSweep(Join(0))
    ensures s.slots[0].tid == Some(0) && s.threads == [Thread(0, AtPoll(Top))]
  {
    var c := TINY;
    var o := InitialState();
    var s0 := FirstPass(c);
    var s1 := s0.(signalled := true);
    assert Next(c, s0, s1);
    NextKeepsPlayInv(c, s0, s1);
    ReachesStep(c, o, s0, s1);
    var s2 := KeysPass(c, s1);
    ReachesTrans(c, o, s1, s2);
    var s3 := TimerPass(c, s2);
    ReachesTrans(c, o, s2, s3);
    s := LeaveLoop(c, o, s3);
  }

  /** A signal arrives while a word falls and the word's thread does not run until `safe_game_cleanup`
      holds words_mutex: from that reachable state the cleanup never returns. */
  lemma StuckCleanupReachable() returns (s: State)
    ensures Reaches(TINY, InitialState(), s) && PlayInv(TINY, s) && s.main.pc == AtSweep(Join(0))
    ensures !(exists e :: Reaches(TINY, s, e) && e.main.pc == AtSweep(Ended))
  {
    s := Interrupted();
    assert Stuck(TINY, s, 0, 0);
    forall e | Reaches(TINY, s, e) ensures e.main.pc != AtSweep(Ended) { StuckNeverEnds(TINY, s, e, 0, 0); }
  }

  lemma LeaveLoop(c: Config, o: State, s: State) returns (e: State)
    requires Reaches(c, o, s) && PlayInv(c, s) && s.main.pc == AtDraw(ScreenWant, false)
    requires s.main.quit && s.locks == FREE
    requires forall j :: 0 <= j < |s.slots| ==> !s.slots[j].toRemove
    ensures Reaches(c, o, e) && PlayInv(c, e) && e.main.pc == AtSweep(Join(0)) && e.threads == s.threads
    ensures |e.slots| == |s.slots| && forall j :: 0 <= j < |s.slots| ==> e.slots[j].tid == s.slots[j].tid
  {
    var s1 := DrawPass(c, s, false);
    ReachesTrans(c, o, s, s1);
    var s2 := ReapPass(c, s1);
    ReachesTrans(c, o, s1, s2);
    var s3 := ReapStep(s2, LoopEnd).value;
    MainMoves(c, o, s2, ANY, s3);
    var s4 := DrawPass(c, s3, true);
    ReachesTrans(c, o, s3, s4);
    e := SweepPass(c, o, s4);
  }

  lemma SweepPass(c: Config, o: State, s: State) returns (e: State)
    requires Reaches(c, o, s) && PlayInv(c, s) && s.main.pc == AtSweep(FinalKey) && s.locks == FREE
    ensures Reaches(c, o, e) && PlayInv(c, e) && e.main.pc == AtSweep(Join(0)) && e.threads == s.threads
    ensures |e.slots| == |s.slots| && forall j :: 0 <= j < |s.slots| ==> e.slots[j].tid == s.slots[j].tid
  {
    var s1 := SweepStep(s, FinalKey).value;
    MainMoves(c, o, s, ANY, s1);
    var s2 := SweepStep(s1, MarkWant).value;
    MainMoves(c, o, s1, ANY, s2);
    var s3 := SweepStep(s2, MarkIn).value;
    MainMoves(c, o, s2, ANY, s3);
    e := SweepStep(s3, JoinWant).value;
    MainMoves(c, o, s3, ANY, e);
  }

  // ---------- the first word is typed, and placed again before its thread has moved ----------

  /** "a" is typed and credited; its slot still belongs to its thread, which has not moved. */
  predicate Typed1(s: State) {
    && |s.slots| == MAX_WORDS && s.threads == [Thread(0, AtPoll(Top))]
    && s.slots[0] == Slot(['a'], 0, false, false, Normal, Some(0), Some(0))
    && (forall j :: 0 < j < MAX_WORDS ==> s.slots[j] == EMPTY_SLOT)
    && s.locks == FREE && !s.game.over && !s.signalled && s.game.table == {}
  }

  /** The line is submitted: up to the release of words_mutex. */
  lemma SubmitA(c: Config, s: State) returns (e: State)
    requires PlayInv(c, s) && FirstWord(s) && s.main == Main(AtSubmit(SubmitWant), false, ['a'])
    ensures Reaches(c, s, e) && PlayInv(c, e) && Typed1(e)
    ensures e.main == Main(AtSubmit(CreditWant(0, Normal)), false, ['a'])
  {
    var s1 := SubmitStep(s, SubmitWant).value;
    MainMoves(c, s, s, ANY, s1);
    assert Matches(s1.slots, ['a'], 0);
    assert TargetUpTo(s1.slots, s1.main.input, |s1.slots|) == 0;
    e := TypeWord(c, s1, 0);
    ReachesTrans(c, s, s1, e);
  }

  lemma CreditA(c: Config, s: State) returns (e: State)
    requires PlayInv(c, s) && Typed1(s) && s.main == Main(AtSubmit(CreditWant(0, Normal)), false, ['a'])
    ensures Reaches(c, s, e) && PlayInv(c, e) && Typed1(e) && e.main == Main(AtTimer(CanSpawnWant), false, [])
  {
    var s1 := SubmitStep(s, CreditWant(0, Normal)).value;
    MainMoves(c, s, s, ANY, s1);
    e := SubmitStep(s1, CreditIn(0, Normal)).value;
    MainMoves(c, s, s1, ANY, e);
  }

  /** A reachable state of a game that is on, no signal sent, in which LateExitLosesWord applies: "a" has been typed,
      its thread has not moved since, and "a" is placed again without any fallback. */
  lemma TypedPlaceReachable() returns (s: State)
    ensures Reaches(TINY, InitialState(), s) && PlayInv(TINY, s) && s.main.pc == AtPick(Place(1, ['a']))
    ensures Held(s.main.pc, s.threads, s.slots[0], 0) && !s.slots[0].active && s.slots[0].text == ['a']
    ensures NoSignal(s) && !s.game.over
  {
    var c, o := TINY, InitialState();
    var s0 := FirstPass(c);
    var s1 := TypeLine(c, s0, ['a']);
    ReachesTrans(c, o, s0, s1);
    var s2 := SubmitA(c, s1);
    ReachesTrans(c, o, s1, s2);
    s := AfterTyping(c, o, s2);
  }

  lemma AfterTyping(c: Config, o: State, m: State) returns (s: State)
    requires c == TINY && Reaches(c, o, m) && PlayInv(c, m) && Typed1(m)
    requires m.main == Main(AtSubmit(CreditWant(0, Normal)), false, ['a'])
    ensures Reaches(c, o, s) && PlayInv(c, s) && s.main.pc == AtPick(Place(1, ['a']))
    ensures Held(s.main.pc, s.threads, s.slots[0], 0) && !s.slots[0].active && s.slots[0].text == ['a']
    ensures NoSignal(s) && !s.game.over
  {
    var m1 := CreditA(c, m);
    ReachesTrans(c, o, m, m1);
    var m2 := TimerPass(c, m1);
    ReachesTrans(c, o, m1, m2);
    assert !IsFree(m2.slots[0]) && IsFree(m2.slots[1]);
    s := PickFresh(c, m2, 1, 0);
    ReachesTrans(c, o, m2, s);
  }
}
