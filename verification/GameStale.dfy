/** Why the condition on exactness of the table is needed: from any reachable state, placing a text still in use can be
    followed by steps after which a word on the screen is missing from the table. Three ways: the old owner's thread
    exits on a signal, it exits late after its word was typed, or the player types one of two equal words. */
module GameStale {
  import opened Bytes
  import opened Game
  import opened GameLocks
  import opened GameProgress
  import opened GameBooks
  import opened GameIndex

  // ---------- main places the word and starts its thread ----------

  /** Main holds words_mutex, so nobody holds the table's mutex. */
  lemma HashIsFree(s: State)
    requires Inv(s) && s.locks.words == MainThread && !MainHolds(s.main.pc, HashLock)
    ensures s.locks.hash == Nobody
  {
    assert s.locks.hash.WordThread? ==> WordLocks(s.locks.hash.id, s.threads[s.locks.hash.id].pc, s.locks);
  }

  /** From AddWant(i) main can start the thread and give words_mutex back. */
  lemma FinishSpawn(c: Config, s: State, i: nat) returns (e: State)
    requires PlayInv(c, s) && s.main.pc == AtCreate(AddWant(i))
    ensures Reaches(c, s, e) && PlayInv(c, e) && e.main.pc == AtDraw(ScreenWant, false) && e.locks.words == Nobody
    ensures e.threads == s.threads[s.slots[i].inst.value := s.threads[s.slots[i].inst.value].(pc := AtPoll(Top))]
    ensures e.slots == s.slots[i := s.slots[i].(tid := s.slots[i].inst)]
    ensures e.main == s.main.(pc := AtDraw(ScreenWant, false)) && e.signalled == s.signalled
    ensures e.game == s.game.(table := s.game.table + {s.slots[i].text}) && e.locks == s.locks.(words := Nobody)
  {
    HashIsFree(s);
    var s1 := CreateStep(s, AddWant(i), ANY).value;
    MainMoves(c, s, s, ANY, s1);
    var s2 := CreateStep(s1, AddIn(i), ANY).value;
    MainMoves(c, s, s1, ANY, s2);
    var s3 := CreateStep(s2, Create(i), ANY).value;
    MainMoves(c, s, s2, ANY, s3);
    e := CreateStep(s3, SpawnOut, ANY).value;
    MainMoves(c, s, s3, ANY, e);
  }

  lemma MainMoves(c: Config, s: State, m: State, x: Choice, e: State)
    requires PlayInv(c, m) && MainStep(c, m, x) == Some(e) && (s == m || Reaches(c, s, m))
    ensures Reaches(c, s, e) && PlayInv(c, e)
  {
    assert MainNext(c, m, e);
    NextKeepsPlayInv(c, m, e);
    if s == m { ReachesSelf(c, s); }
    ReachesStep(c, s, m, e);
  }

  lemma PlacedState(c: Config, s: State, i: nat, pick: Bytes, x: Choice) returns (s1: State)
    requires PlayInv(c, s) && s.main.pc == AtPick(Place(i, pick))
    ensures Reaches(c, s, s1) && PlayInv(c, s1) && s1.main == s.main.(pc := AtCreate(AddWant(i)))
    ensures i < |s.slots| == |s1.slots| && s1.slots == s.slots[i := s1.slots[i]]
    ensures s1.slots[i].active && s1.slots[i].text == Truncated(pick, MAX_WORD_LEN - 1) && s1.slots[i].y == 0
    ensures s1.slots[i].inst == Some(|s.threads|) && s1.slots[i].wtype == x.wtype && !s1.slots[i].toRemove
    ensures s1.threads == s.threads + [Thread(i, NotStarted)]
    ensures s1.game == s.game && s1.signalled == s.signalled && s1.locks == s.locks
  {
    s1 := PickStep(c, s, Place(i, pick), x).value;
    MainMoves(c, s, s, x, s1);
  }

  // ---------- the old owner of the text runs to its exit ----------

  /** No signal has arrived, and no thread has seen one. */
  ghost predicate NoSignal(s: State) {
    !s.signalled && forall t :: 0 <= t < |s.threads| ==> !SignalSeen(s.threads[t].pc)
  }

  /** The word of slot j is off the screen. */
  predicate OffScreen(s: State, j: nat) {
    j < |s.slots| && !s.slots[j].active
  }

  /** Why thread t will leave its loop. In a calm run the game is on and goes on: its own word has been typed.
      Otherwise a signal has arrived. */
  ghost predicate WillLeave(s: State, t: nat, calm: bool)
    requires t < |s.threads|
  {
    if calm then NoSignal(s) && !s.game.over && OffScreen(s, s.threads[t].slot) && !Falling(s.threads[t].pc)
    else s.signalled
  }

  /** Thread t owns an old slot with text w; slot i shows w on the screen; main is out of the way. */
  ghost predicate Driving(c: Config, s: State, t: nat, i: nat, w: Bytes, calm: bool) {
    && PlayInv(c, s) && s.main.pc == AtDraw(ScreenWant, false)
    && t < |s.threads| && i < |s.slots| && s.threads[t].slot != i && WillLeave(s, t, calm)
    && s.slots[i].active && s.slots[i].text == w && s.slots[s.threads[t].slot].text == w
    && (s.locks.words == Nobody || s.locks.words == WordThread(t))
    && !Unborn(s.threads[t].pc) && s.threads[t].pc != AtExit(Done)
    && (s.threads[t].pc == AtExit(ExitOut) || s.threads[t].pc == AtExit(Returning) ==> w !in s.game.table)
  }

  /** How far thread t is from returning. Unless the game is over, or its word is off the screen when it looks, it must
      first pass the signal check. */
  function Distance(over: bool, off: bool, pc: WordPc): nat {
    match pc
    case AtExit(ep) =>
      (match ep
       case ExitWant => 5 case ExitIn => 4 case ExitHashWant => 3 case ExitHashIn => 2 case ExitOut => 1 case _ => 0)
    case AtDrop(dp) =>
      (match dp case DropWant => 30 case DropIn => 29 case FallHashWant => 28 case FallHashIn => 27
                case FallStateWant => 26 case FallStateIn => 25 case DropOut => 24)
    case AtPoll(pp) =>
      (match pp
       case SignalIn => 10 case SignalWant => 11 case Top => 12 case Tick => 13 case IntervalIn => 14
       case IntervalWant => 15 case Choose => 16
       case OverIn(active) => if over || !active then 6 else 17
       case OverWant(active) => if over || !active then 7 else 18
       case PollIn => if over || off then 8 else 19
       case PollWant => if over || off then 9 else 20)
    case _ => 0
  }

  function DistanceOf(s: State, t: nat): nat
    requires t < |s.threads|
  {
    Distance(s.game.over, OffScreen(s, s.threads[t].slot), s.threads[t].pc)
  }

  predicate OtherHoldsState(s: State, t: nat) {
    s.locks.state != Nobody && s.locks.state != WordThread(t)
  }

  /** Another thread that holds the state lock gives it back in one step, without touching words or table. */
  lemma OtherReleases(c: Config, s: State, t: nat, i: nat, w: Bytes, calm: bool) returns (s': State)
    requires Driving(c, s, t, i, w, calm) && OtherHoldsState(s, t)
    ensures Next(c, s, s') && Driving(c, s', t, i, w, calm) && !OtherHoldsState(s', t)
    ensures DistanceOf(s', t) == DistanceOf(s, t) || s'.game.over != s.game.over
    ensures s.game.over ==> s'.game.over
  {
    var u := s.locks.state.id;
    assert WordLocks(u, s.threads[u].pc, s.locks);
    assert calm ==> !SignalSeen(s.threads[u].pc);
    s' := PollStep(s, u, s.threads[u].pc.pp, ANY).value;
    StateGivenBack(s, u, s.threads[u].pc.pp, ANY, s');
    WordNextKeeps(c, s, u, s');
  }

  /** Thread t can take a step towards its exit. */
  lemma OwnMove(c: Config, s: State, t: nat, i: nat, w: Bytes, calm: bool) returns (s': State)
    requires Driving(c, s, t, i, w, calm) && !OtherHoldsState(s, t) && s.threads[t].pc != AtExit(Returning)
    ensures WordStep(c, s, t, ANY) == Some(s')
  {
    assert WordLocks(t, s.threads[t].pc, s.locks);
    if s.locks.hash.WordThread? {
      assert WordLocks(s.locks.hash.id, s.threads[s.locks.hash.id].pc, s.locks);
    }
    WordCanStep(c, s, t);
    s' := WordStep(c, s, t, ANY).value;
  }

  /** What thread t's step does to the game-over flag, to its distance and to the locks. */
  ghost predicate Nearer(s: State, t: nat, s': State, calm: bool)
    requires t < |s.threads| == |s'.threads|
  {
    && (s'.game.over == s.game.over ==> DistanceOf(s', t) < DistanceOf(s, t))
    && (s.game.over ==> s'.game.over)
    && (calm ==> !s'.game.over && !SignalSeen(s'.threads[t].pc) && !Falling(s'.threads[t].pc))
    && (s'.threads[t].pc == AtExit(ExitOut) ==> s.threads[t].pc == AtExit(ExitHashIn))
    && (s'.threads[t].pc == AtExit(Returning) ==> s.threads[t].pc == AtExit(ExitOut) && s'.game == s.game)
    && s'.threads[t].pc != AtExit(Done)
  }

  lemma PollNearer(s: State, t: nat, pp: PollPc, s': State, calm: bool)
    requires Shape(s) && t < |s.threads| && s.threads[t].pc == AtPoll(pp) && PollStep(s, t, pp, ANY) == Some(s')
    requires |s'.threads| == |s.threads| && WillLeave(s, t, calm)
    ensures Nearer(s, t, s', calm)
  {
  }

  lemma DropNearer(c: Config, s: State, t: nat, dp: DropPc, s': State, calm: bool)
    requires Shape(s) && t < |s.threads| && s.threads[t].pc == AtDrop(dp) && DropStep(c, s, t, dp) == Some(s')
    requires |s'.threads| == |s.threads| && WillLeave(s, t, calm)
    ensures Nearer(s, t, s', calm)
  {
  }

  lemma ExitNearer(s: State, t: nat, ep: ExitPc, s': State, calm: bool)
    requires Shape(s) && t < |s.threads| && s.threads[t].pc == AtExit(ep) && ExitStep(s, t, ep) == Some(s')
    requires ep != Returning && |s'.threads| == |s.threads| && WillLeave(s, t, calm)
    ensures Nearer(s, t, s', calm)
  {
  }

  lemma OwnNearer(c: Config, s: State, t: nat, s': State, calm: bool)
    requires Inv(s) && t < |s.threads| && WordStep(c, s, t, ANY) == Some(s') && WordEffect(s, t, s')
    requires WillLeave(s, t, calm) && s.threads[t].pc != AtExit(Returning)
    ensures Nearer(s, t, s', calm) && Touches(s.locks, s'.locks, WordThread(t))
  {
    assert WordLocks(t, s.threads[t].pc, s.locks);
    match s.threads[t].pc
    case AtPoll(pp) => PollNearer(s, t, pp, s', calm); PollLocks(s, t, pp, ANY, s');
    case AtDrop(dp) => DropNearer(c, s, t, dp, s', calm); DropLocks(c, s, t, dp, s');
    case AtExit(ep) => ExitNearer(s, t, ep, s', calm); ExitLocks(s, t, ep, s');
    case _ =>
  }

  lemma OwnMoveDrives(c: Config, s: State, t: nat, i: nat, w: Bytes, s': State, calm: bool)
    requires Driving(c, s, t, i, w, calm) && s.threads[t].pc != AtExit(Returning)
    requires WordEffect(s, t, s') && WordStep(c, s, t, ANY) == Some(s')
    ensures Nearer(s, t, s', calm)
    ensures Driving(c, s', t, i, w, calm) && Next(c, s, s')
    ensures OtherHoldsState(s', t) ==> OtherHoldsState(s, t)
  {
    WordNextKeeps(c, s, t, s');
    WordTable(c, s, t, ANY, s');
    OwnNearer(c, s, t, s', calm);
  }

  lemma {:induction false} DriveToExit(c: Config, s: State, t: nat, i: nat, w: Bytes, calm: bool) returns (e: State)
    requires Driving(c, s, t, i, w, calm)
    ensures Reaches(c, s, e) && Driving(c, e, t, i, w, calm) && e.threads[t].pc == AtExit(Returning)
    decreases !s.game.over, DistanceOf(s, t), OtherHoldsState(s, t)
  {
    ReachesSelf(c, s);
    if s.threads[t].pc == AtExit(Returning) {
      e := s;
    } else {
      var s': State;
      if OtherHoldsState(s, t) {
        s' := OtherReleases(c, s, t, i, w, calm);
      } else {
        s' := OwnMove(c, s, t, i, w, calm);
        WordStepEffect(c, s, t, ANY, s');
        OwnMoveDrives(c, s, t, i, w, s', calm);
      }
      e := DriveToExit(c, s', t, i, w, calm);
      ReachesStep(c, s, s, s');
      ReachesTrans(c, s, s', e);
    }
  }

  // ---------- the converse of exactness ----------

  /** words_mutex is free and a word on the screen is missing from the table. */
  predicate TableLost(s: State) {
    s.locks.words == Nobody && exists i :: 0 <= i < |s.slots| && s.slots[i].active && s.slots[i].text !in s.game.table
  }

  /** Main places the word and starts its thread, while the old owner t of the text is still running. */
  lemma Respawn(c: Config, s: State, i: nat, pick: Bytes, j: nat, t: nat, calm: bool) returns (e: State)
    requires PlayInv(c, s) && s.main.pc == AtPick(Place(i, pick)) && j < |s.slots| && j != i
    requires s.slots[j].text == Truncated(pick, MAX_WORD_LEN - 1)
    requires t < |s.threads| && s.threads[t].slot == j && !Unborn(s.threads[t].pc) && !RemovalDone(s.threads[t].pc)
    requires WillLeave(s, t, calm)
    ensures Reaches(c, s, e) && Driving(c, e, t, i, s.slots[j].text, calm)
  {
    var s1 := PlacedState(c, s, i, pick, ANY);
    e := FinishSpawn(c, s1, i);
    ReachesTrans(c, s, s1, e);
  }

  /** A signal arrives. */
  lemma Interrupt(c: Config, s: State) returns (e: State)
    requires PlayInv(c, s)
    ensures Reaches(c, s, e) && PlayInv(c, e) && e == s.(signalled := true)
  {
    e := s.(signalled := true);
    assert Next(c, s, e);
    NextKeepsPlayInv(c, s, e);
    ReachesSelf(c, s);
    ReachesStep(c, s, s, e);
  }

  /** A text in use at the moment of placing belongs to another slot, whose thread has yet to remove it. */
  lemma StaleOwner(s: State, i: nat, pick: Bytes, j: nat)
    requires Inv(s) && s.main.pc == AtPick(Place(i, pick)) && j < |s.slots|
    requires Held(s.main.pc, s.threads, s.slots[j], j)
    ensures j != i && s.slots[j].tid.Some?
    ensures s.threads[s.slots[j].tid.value].slot == j
    ensures !Unborn(s.threads[s.slots[j].tid.value].pc) && !RemovalDone(s.threads[s.slots[j].tid.value].pc)
  {
    assert SlotOk(s.main.pc, s.threads, s.slots[j], j);
    var t := s.slots[j].tid.value;
    assert WordLocks(t, s.threads[t].pc, s.locks);
  }

  /** The old owner of the text runs to its exit, and takes the new word's text with it. */
  lemma OwnerTakesText(c: Config, s: State, i: nat, pick: Bytes, j: nat, calm: bool) returns (e: State)
    requires PlayInv(c, s) && s.main.pc == AtPick(Place(i, pick)) && j < |s.slots|
    requires Held(s.main.pc, s.threads, s.slots[j], j) && s.slots[j].text == Truncated(pick, MAX_WORD_LEN - 1)
    requires if calm then NoSignal(s) && !s.game.over && !s.slots[j].active else s.signalled
    ensures Reaches(c, s, e) && TableLost(e) && (calm ==> !e.game.over)
  {
    StaleOwner(s, i, pick, j);
    var t := s.slots[j].tid.value;
    assert WordLocks(t, s.threads[t].pc, s.locks);
    var m := Respawn(c, s, i, pick, j, t, calm);
    e := DriveToExit(c, m, t, i, s.slots[j].text, calm);
    ReachesTrans(c, s, m, e);
    assert WordLocks(t, e.threads[t].pc, e.locks);
    assert e.slots[i].active && e.slots[i].text !in e.game.table;
  }

  /** Whenever a word is placed while its text is still in use by slot j, a continuation loses it from the table. */
  lemma StaleSpawnLosesWord(c: Config, s: State, i: nat, pick: Bytes, j: nat) returns (e: State)
    requires PlayInv(c, s) && s.main.pc == AtPick(Place(i, pick)) && j < |s.slots|
    requires Held(s.main.pc, s.threads, s.slots[j], j) && s.slots[j].text == Truncated(pick, MAX_WORD_LEN - 1)
    ensures Reaches(c, s, e) && TableLost(e)
  {
    var m := Interrupt(c, s);
    e := OwnerTakesText(c, m, i, pick, j, false);
    ReachesTrans(c, s, m, e);
  }

  /** While the game is on: whenever a word is placed that reads the same as one already typed whose thread has not yet
      run its exit section, that thread can go on to take the new word's text out, and the game is still on. */
  lemma LateExitLosesWord(c: Config, s: State, i: nat, pick: Bytes, j: nat) returns (e: State)
    requires PlayInv(c, s) && s.main.pc == AtPick(Place(i, pick)) && NoSignal(s) && !s.game.over && j < |s.slots|
    requires Held(s.main.pc, s.threads, s.slots[j], j) && !s.slots[j].active
    requires s.slots[j].text == Truncated(pick, MAX_WORD_LEN - 1)
    ensures Reaches(c, s, e) && TableLost(e) && !e.game.over
  {
    e := OwnerTakesText(c, s, i, pick, j, true);
  }

  /** From the search for the submitted line, main takes word r off the screen and its text out of the table. */
  lemma TypeWord(c: Config, s: State, r: nat) returns (e: State)
    requires PlayInv(c, s) && s.main.pc == AtSubmit(SubmitIn) && TargetUpTo(s.slots, s.main.input, |s.slots|) == r
    ensures Reaches(c, s, e) && PlayInv(c, e) && r < |s.slots| && e.slots == s.slots[r := s.slots[r].(active := false)]
    ensures e.game == Removed(s.game, s.main.input) && e.locks == s.locks.(words := Nobody)
    ensures e.main == s.main.(pc := AtSubmit(CreditWant(r, s.slots[r].wtype)))
    ensures e.threads == s.threads && e.signalled == s.signalled
  {
    HashIsFree(s);
    var wtype := s.slots[r].wtype;
    var s1 := SubmitStep(s, SubmitIn).value;
    MainMoves(c, s, s, ANY, s1);
    var s2 := SubmitStep(s1, TypedHashWant(r, wtype)).value;
    MainMoves(c, s, s1, ANY, s2);
    var s3 := SubmitStep(s2, TypedHashIn(r, wtype)).value;
    MainMoves(c, s, s2, ANY, s3);
    e := SubmitStep(s3, TypedOut(r, wtype)).value;
    MainMoves(c, s, s3, ANY, e);
  }

  /** Whenever the submitted line is the text of two words on the screen, typing it takes one of them off, and takes the
      text out of the table although the other word stays. If the game is on it stays on. */
  lemma TypingTwinLosesWord(c: Config, s: State, i: nat, j: nat) returns (e: State)
    requires PlayInv(c, s) && s.main.pc == AtSubmit(SubmitIn) && i < |s.slots| && j < |s.slots| && i != j
    requires Matches(s.slots, s.main.input, i) && Matches(s.slots, s.main.input, j)
    ensures Reaches(c, s, e) && TableLost(e) && e.game.over == s.game.over
    ensures Matches(e.slots, s.main.input, i) || Matches(e.slots, s.main.input, j)
    ensures s.main.input !in e.game.table
  {
    var r := TargetUpTo(s.slots, s.main.input, |s.slots|);
    e := TypeWord(c, s, r);
    var k := if r == i then j else i;
    assert e.slots[k].active && e.slots[k].text !in e.game.table;
  }

  /** And whenever no memory is found for the node of a text not yet in the table. */
  lemma LostNodeLosesWord(c: Config, s: State, i: nat) returns (e: State)
    requires PlayInv(c, s) && s.main.pc == AtCreate(AddIn(i)) && s.slots[i].text !in s.game.table
    ensures Reaches(c, s, e) && TableLost(e)
  {
    assert SlotOk(s.main.pc, s.threads, s.slots[i], i);
    var x := ANY.(room := false);
    var s1 := CreateStep(s, AddIn(i), x).value;
    MainMoves(c, s, s, x, s1);
    var s2 := CreateStep(s1, Create(i), ANY).value;
    MainMoves(c, s, s1, ANY, s2);
    e := CreateStep(s2, SpawnOut, ANY).value;
    MainMoves(c, s, s2, ANY, e);
    assert e.slots[i].active && e.slots[i].text !in e.game.table;
  }
}
