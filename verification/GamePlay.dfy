/** What play can lead to from a moment when the game is on and nothing else moves: every word on the screen can be
    typed, and every word can fall to the bottom. */
module GamePlay {
  import opened Bytes
  import opened Game
  import opened GameLocks
  import opened GameProgress
  import opened GameBooks
  import opened GameTheorems
  import opened GameStale

  const FREE := Locks(Nobody, Nobody, Nobody, Nobody)
  const SPAWN := ANY.(spawn := true)

  // ---------- passes of the main loop in which only main moves ----------

  /** From the top of the loop, no key pressed, to the spawn decision. */
  lemma KeysPass(c: Config, s: State) returns (e: State)
    requires PlayInv(c, s) && s.main.pc == AtKeys(LoopTop) && s.locks == FREE
    ensures Reaches(c, s, e) && PlayInv(c, e)
    ensures e == s.(main := e.main, game := e.game) && e.game == s.game.(over := s.game.over || s.signalled)
    ensures e.main == s.main.(pc := AtTimer(CanSpawnWant), quit := e.game.over)
  {
    var s1 := KeysStep(s, LoopTop, ANY).value;
    MainMoves(c, s, s, ANY, s1);
    var s2 := s1;
    if s.signalled { s2 := QuitPass(c, s, s1); }
    var s3 := KeysStep(s2, FlagWant, ANY).value;
    MainMoves(c, s, s2, ANY, s3);
    var s4 := KeysStep(s3, FlagIn, ANY).value;
    MainMoves(c, s, s3, ANY, s4);
    e := KeysStep(s4, GetKey, ANY).value;
    MainMoves(c, s, s4, ANY, e);
  }

  lemma QuitPass(c: Config, s: State, m: State) returns (e: State)
    requires Reaches(c, s, m) && PlayInv(c, m) && m.main.pc == AtKeys(QuitWant) && m.locks == FREE
    ensures Reaches(c, s, e) && PlayInv(c, e)
    ensures e == m.(main := m.main.(pc := AtKeys(FlagWant), quit := true), game := m.game.(over := true))
  {
    var m1 := KeysStep(m, QuitWant, ANY).value;
    MainMoves(c, s, m, ANY, m1);
    e := KeysStep(m1, QuitIn, ANY).value;
    MainMoves(c, s, m1, ANY, e);
  }

  /** From the spawn decision to spawn_word, or past it when the game is over. */
  lemma TimerPass(c: Config, s: State) returns (e: State)
    requires PlayInv(c, s) && s.main.pc == AtTimer(CanSpawnWant) && s.locks == FREE && |c.dict| > 0
    ensures Reaches(c, s, e) && PlayInv(c, e)
    ensures e == Goto(s, if s.game.over then AtDraw(ScreenWant, false) else AtPick(SpawnWant))
  {
    var s1 := TimerStep(c, s, CanSpawnWant, ANY).value;
    MainMoves(c, s, s, ANY, s1);
    var s2 := TimerStep(c, s1, CanSpawnIn, ANY).value;
    MainMoves(c, s, s1, ANY, s2);
    e := TimerStep(c, s2, SpawnTimer(!s.game.over), SPAWN).value;
    MainMoves(c, s, s2, SPAWN, e);
  }

  lemma DrawPass(c: Config, s: State, final: bool) returns (e: State)
    requires PlayInv(c, s) && s.main.pc == AtDraw(ScreenWant, final) && s.locks == FREE
    ensures Reaches(c, s, e) && PlayInv(c, e)
    ensures e == Goto(s, if final then AtSweep(FinalKey) else AtReap(ReapWant))
  {
    var s1 := DrawStep(s, ScreenWant, final).value;
    MainMoves(c, s, s, ANY, s1);
    var s2 := DrawStep(s1, DrawStateWant, final).value;
    MainMoves(c, s, s1, ANY, s2);
    var s3 := DrawStep(s2, DrawStateIn, final).value;
    MainMoves(c, s, s2, ANY, s3);
    var s4 := DrawStep(s3, DrawLevelWant, final).value;
    MainMoves(c, s, s3, ANY, s4);
    e := DrawWordsPass(c, s, s4, final);
  }

  lemma DrawWordsPass(c: Config, s: State, m: State, final: bool) returns (e: State)
    requires Reaches(c, s, m) && PlayInv(c, m) && m.main.pc == AtDraw(DrawLevelIn, final)
    requires m.locks == Locks(MainThread, Nobody, MainThread, Nobody)
    ensures Reaches(c, s, e) && PlayInv(c, e)
    ensures e == Goto(m, if final then AtSweep(FinalKey) else AtReap(ReapWant)).(locks := FREE)
  {
    var m1 := DrawStep(m, DrawLevelIn, final).value;
    MainMoves(c, s, m, ANY, m1);
    var m2 := DrawStep(m1, DrawWordsWant, final).value;
    MainMoves(c, s, m1, ANY, m2);
    var m3 := DrawStep(m2, DrawWordsIn, final).value;
    MainMoves(c, s, m2, ANY, m3);
    e := DrawStep(m3, ScreenOut, final).value;
    MainMoves(c, s, m3, ANY, e);
  }

  /** The joining loop of the play loop passes over slots that are not marked. */
  lemma {:induction false} ReapFrom(c: Config, s: State, m: State, i: nat) returns (e: State)
    requires Reaches(c, s, m) && PlayInv(c, m) && i <= |m.slots| && m.main.pc == AtReap(Reap(i))
    requires forall j :: 0 <= j < |m.slots| ==> !m.slots[j].toRemove
    ensures Reaches(c, s, e) && PlayInv(c, e)
    ensures e == Goto(m, AtReap(LoopEnd)).(locks := m.locks.(words := Nobody))
    decreases |m.slots| - i
  {
    var m1 := ReapStep(m, Reap(i)).value;
    MainMoves(c, s, m, ANY, m1);
    if i == |m.slots| {
      e := m1;
    } else {
      assert m1.slots == m.slots;
      e := ReapFrom(c, s, m1, i + 1);
    }
  }

  lemma ReapPass(c: Config, s: State) returns (e: State)
    requires PlayInv(c, s) && s.main.pc == AtReap(ReapWant) && s.locks == FREE
    requires forall j :: 0 <= j < |s.slots| ==> !s.slots[j].toRemove
    ensures Reaches(c, s, e) && PlayInv(c, e)
    ensures e == Goto(s, AtReap(LoopEnd))
  {
    var s1 := ReapStep(s, ReapWant).value;
    MainMoves(c, s, s, ANY, s1);
    e := ReapFrom(c, s, s1, 0);
  }

  /** The game is on, no mutex is held, and no slot waits for its thread to be joined. */
  ghost predicate Calm(s: State) {
    && s.locks == FREE && !s.game.over && !s.signalled
    && forall j :: 0 <= j < |s.slots| ==> !s.slots[j].toRemove
  }

  lemma BackToTop(c: Config, s: State, m: State) returns (e: State)
    requires Reaches(c, s, m) && PlayInv(c, m) && Calm(m) && m.main.pc == AtDraw(ScreenWant, false) && !m.main.quit
    ensures Reaches(c, s, e) && PlayInv(c, e) && e == Goto(m, AtKeys(LoopTop))
  {
    var m1 := DrawPass(c, m, false);
    ReachesTrans(c, s, m, m1);
    var m2 := ReapPass(c, m1);
    ReachesTrans(c, s, m1, m2);
    e := ReapStep(m2, LoopEnd).value;
    MainMoves(c, s, m2, ANY, e);
  }

  // ---------- spawning ----------

  /** From spawn_word's entry to the placing of a word that is not in the table. */
  lemma PickFresh(c: Config, s: State, i: nat, pick: nat) returns (e: State)
    requires PlayInv(c, s) && s.main.pc == AtPick(SpawnWant) && s.locks == FREE && i < |s.slots|
    requires s.slots[i].tid == None && forall j :: 0 <= j < i ==> s.slots[j].tid != None && !s.slots[j].toRemove
    requires pick < |c.dict| && c.dict[pick] !in s.game.table
    ensures Reaches(c, s, e) && PlayInv(c, e)
    ensures e == Goto(s, AtPick(Place(i, c.dict[pick]))).(locks := FREE.(words := MainThread))
  {
    var s1 := PickStep(c, s, SpawnWant, ANY).value;
    MainMoves(c, s, s, ANY, s1);
    assert FreeSlotFrom(s1.slots, 0) == i;
    var s2 := PickStep(c, s1, SpawnIn, ANY).value;
    assert s2.slots == s1.slots;
    MainMoves(c, s, s1, ANY, s2);
    e := LookPass(c, s, s2, i, pick);
  }

  lemma LookPass(c: Config, s: State, m: State, i: nat, pick: nat) returns (e: State)
    requires Reaches(c, s, m) && PlayInv(c, m) && m.main.pc == AtPick(Pick(i, 0))
    requires m.locks == FREE.(words := MainThread)
    requires pick < |c.dict| && c.dict[pick] !in m.game.table
    ensures Reaches(c, s, e) && PlayInv(c, e) && e == Goto(m, AtPick(Place(i, c.dict[pick])))
  {
    var x := ANY.(pick := pick);
    var m1 := PickStep(c, m, Pick(i, 0), x).value;
    MainMoves(c, s, m, x, m1);
    var m2 := PickStep(c, m1, LookWant(i, 1, c.dict[pick]), ANY).value;
    MainMoves(c, s, m1, ANY, m2);
    e := PickStep(c, m2, LookIn(i, 1, c.dict[pick]), ANY).value;
    MainMoves(c, s, m2, ANY, e);
  }

  /** What is there after one more word: e is s with word w of that type in slot i, its thread about to run. */
  predicate HasSpawned(s: State, i: nat, w: Bytes, wtype: WordType, e: State) {
    var t := |s.threads|;
    && i < |s.slots| && e.slots == s.slots[i := Slot(w, 0, true, false, wtype, Some(t), Some(t))]
    && e.threads == s.threads + [Thread(i, AtPoll(Top))]
    && e.game == s.game.(table := s.game.table + {w}) && e.main == s.main
  }

  /** Every word of the list that is not on the screen can be spawned, as a word of any type, in the first free slot; it
      shows cut to 29 bytes. */
  lemma WordCanBeSpawned(c: Config, s: State, i: nat, pick: nat, wtype: WordType) returns (e: State)
    requires PlayInv(c, s) && Calm(s) && s.main.pc == AtKeys(LoopTop) && !s.main.quit && i < |s.slots|
    requires s.slots[i].tid == None && forall j :: 0 <= j < i ==> s.slots[j].tid != None
    requires pick < |c.dict| && c.dict[pick] !in s.game.table
    ensures Reaches(c, s, e) && PlayInv(c, e) && Calm(e)
    ensures HasSpawned(s, i, Truncated(c.dict[pick], 29), wtype, e)
  {
    var s1 := KeysPass(c, s);
    var s2 := TimerPass(c, s1);
    ReachesTrans(c, s, s1, s2);
    var s3 := PickFresh(c, s2, i, pick);
    ReachesTrans(c, s, s2, s3);
    var s4 := SpawnPlaced(c, s3, i, c.dict[pick], wtype);
    ReachesTrans(c, s, s3, s4);
    e := BackToTop(c, s, s4);
  }

  lemma SpawnPlaced(c: Config, s: State, i: nat, pick: Bytes, wtype: WordType) returns (e: State)
    requires PlayInv(c, s) && s.main.pc == AtPick(Place(i, pick)) && s.locks == FREE.(words := MainThread)
    ensures Reaches(c, s, e) && PlayInv(c, e) && e.locks == FREE && e.signalled == s.signalled
    ensures HasSpawned(Goto(s, AtDraw(ScreenWant, false)), i, Truncated(pick, 29), wtype, e)
  {
    var s1 := PlacedState(c, s, i, pick, ANY.(wtype := wtype));
    e := FinishSpawn(c, s1, i);
    ReachesTrans(c, s, s1, e);
  }

  // ---------- typing ----------

  /** The line after these keys, none of which submits it. */
  function Keyed(input: Bytes, keys: seq<int>): Bytes {
    if keys == [] then input else Edited(Keyed(input, keys[..|keys| - 1]), keys[|keys| - 1])
  }

  function Codes(w: Bytes): seq<int> {
    seq(|w|, i requires 0 <= i < |w| => w[i] as int)
  }

  /** Typing a word byte by byte on an empty line leaves that word on the line. */
  lemma {:induction false} KeyedWord(w: Bytes)
    requires Typeable(w)
    ensures Keyed([], Codes(w)) == w
  {
    if w != [] {
      var front := w[..|w| - 1];
      KeyedWord(front);
      assert Codes(w)[..|w| - 1] == Codes(front);
      assert front + [w[|w| - 1]] == w;
    }
  }

  /** Each of the three codes of the backspace key takes back the last byte typed; on an empty line it does nothing, and
      on a full line every other key does nothing. */
  lemma BackspaceUndoes(input: Bytes, ch: int, back: int)
    requires 32 < ch <= 126 && back in {KEY_BACKSPACE, 127, 8}
    ensures |input| < 39 ==> Edited(Edited(input, ch), back) == input
    ensures |input| >= 39 ==> Edited(input, ch) == input
    ensures Edited([], back) == []
  {
    assert (input + [ch as char])[..|input|] == input;
  }

  /** From the top of the loop to the handling of a key. */
  lemma KeyPass(c: Config, s: State, ch: int) returns (e: State)
    requires PlayInv(c, s) && s.main.pc == AtKeys(LoopTop) && s.locks == FREE
    requires !s.signalled && !s.game.over && ch != ERR
    ensures Reaches(c, s, e) && PlayInv(c, e)
    ensures e == s.(main := Main(AtKeys(InputIn(ch)), false, s.main.input), locks := FREE.(state := MainThread))
  {
    var s1 := KeysStep(s, LoopTop, ANY).value;
    MainMoves(c, s, s, ANY, s1);
    var s2 := KeysStep(s1, FlagWant, ANY).value;
    MainMoves(c, s, s1, ANY, s2);
    var s3 := KeysStep(s2, FlagIn, ANY).value;
    MainMoves(c, s, s2, ANY, s3);
    var key := ANY.(ch := ch);
    var s4 := KeysStep(s3, GetKey, key).value;
    MainMoves(c, s, s3, key, s4);
    e := KeysStep(s4, InputWant(ch), ANY).value;
    MainMoves(c, s, s4, ANY, e);
  }

  /** One byte is typed, and back to the top. */
  lemma TypeKey(c: Config, s: State, b: Byte) returns (e: State)
    requires PlayInv(c, s) && Calm(s) && s.main.pc == AtKeys(LoopTop) && !s.main.quit
    requires Typeable(s.main.input + [b])
    ensures Reaches(c, s, e) && PlayInv(c, e) && e == s.(main := s.main.(input := s.main.input + [b]))
  {
    var input := s.main.input + [b];
    assert input[|s.main.input|] == b;
    var s1 := KeyPass(c, s, b as int);
    var s2 := KeysStep(s1, InputIn(b as int), ANY).value;
    MainMoves(c, s, s1, ANY, s2);
    assert s2.main == Main(AtTimer(CanSpawnWant), false, input);
    var s3 := TimerStep(c, s2, CanSpawnWant, ANY).value;
    MainMoves(c, s, s2, ANY, s3);
    var s4 := TimerStep(c, s3, CanSpawnIn, ANY).value;
    MainMoves(c, s, s3, ANY, s4);
    var s5 := TimerStep(c, s4, SpawnTimer(true), ANY).value;
    MainMoves(c, s, s4, ANY, s5);
    e := BackToTop(c, s, s5);
  }

  lemma {:induction false} TypeKeys(c: Config, s: State, w: Bytes) returns (e: State)
    requires PlayInv(c, s) && Calm(s) && s.main == Main(AtKeys(LoopTop), false, []) && Typeable(w)
    ensures Reaches(c, s, e) && PlayInv(c, e) && e == s.(main := Main(AtKeys(LoopTop), false, w))
  {
    if w == [] {
      ReachesSelf(c, s);
      e := s;
    } else {
      var front := w[..|w| - 1];
      assert front + [w[|w| - 1]] == w;
      var m := TypeKeys(c, s, front);
      e := TypeKey(c, m, w[|w| - 1]);
      ReachesTrans(c, s, m, e);
    }
  }

  /** A line and Enter, up to the taking of words_mutex. */
  lemma TypeLine(c: Config, s: State, w: Bytes) returns (e: State)
    requires PlayInv(c, s) && Calm(s) && s.main == Main(AtKeys(LoopTop), false, []) && Typeable(w) && w != []
    ensures Reaches(c, s, e) && PlayInv(c, e) && e == s.(main := Main(AtSubmit(SubmitWant), false, w))
  {
    var s1 := TypeKeys(c, s, w);
    var s2 := KeyPass(c, s1, 10);
    ReachesTrans(c, s, s1, s2);
    e := KeysStep(s2, InputIn(10), ANY).value;
    MainMoves(c, s, s2, ANY, e);
  }

  /** The word's turn under the state lock. */
  lemma Credit(c: Config, s: State, r: nat, wtype: WordType) returns (e: State)
    requires PlayInv(c, s) && s.main.pc == AtSubmit(CreditWant(r, wtype)) && s.locks == FREE && r < |s.slots|
    ensures Reaches(c, s, e) && PlayInv(c, e) && e.slots == s.slots && e.locks == FREE
    ensures e.main == Main(AtTimer(CanSpawnWant), s.main.quit, []) && e.game.table == s.game.table
    ensures e.game.over == (s.game.over || wtype == Kill) && e.game.lives == s.game.lives
    ensures wtype == Kill ==> e.game.score == s.game.score
    ensures wtype == Normal ==> e.game.score == s.game.score + |s.slots[r].text|
    ensures wtype == Bonus ==> e.game.score == s.game.score + |s.slots[r].text| + 50
  {
    var s1 := SubmitStep(s, CreditWant(r, wtype)).value;
    MainMoves(c, s, s, ANY, s1);
    e := SubmitStep(s1, CreditIn(r, wtype)).value;
    MainMoves(c, s, s1, ANY, e);
  }

  /** Whatever word is on the screen, the player can type it: among the slots that show it one goes off the screen, its
      text leaves the table, and it is credited, or ends the game if it is a kill word. */
  lemma WordCanBeTyped(c: Config, s: State, i: nat) returns (e: State, r: nat)
    requires PlayInv(c, s) && Calm(s) && s.main == Main(AtKeys(LoopTop), false, [])
    requires i < |s.slots| && s.slots[i].active && Typeable(s.slots[i].text) && s.slots[i].text != []
    ensures Reaches(c, s, e) && PlayInv(c, e)
    ensures r < |s.slots| && Matches(s.slots, s.slots[i].text, r)
    ensures e.slots == s.slots[r := s.slots[r].(active := false)]
    ensures e.game.table == s.game.table - {s.slots[i].text} && e.game.lives == s.game.lives
    ensures match s.slots[r].wtype
            case Kill => e.game.over && e.game.score == s.game.score
            case Bonus => !e.game.over && e.game.score == s.game.score + |s.slots[i].text| + 50
            case Normal => !e.game.over && e.game.score == s.game.score + |s.slots[i].text|
  {
    var w := s.slots[i].text;
    var s1 := TypeLine(c, s, w);
    var s2 := SubmitStep(s1, SubmitWant).value;
    MainMoves(c, s, s1, ANY, s2);
    assert Matches(s.slots, w, i);
    r := TargetUpTo(s.slots, w, |s.slots|);
    var s3 := TypeWord(c, s2, r);
    ReachesTrans(c, s, s2, s3);
    e := Credit(c, s3, r, s.slots[r].wtype);
    ReachesTrans(c, s, s3, e);
  }

  /** A line that is the text of no word on the screen is cleared, and nothing else changes. */
  lemma MissIsCleared(c: Config, s: State, w: Bytes) returns (e: State)
    requires PlayInv(c, s) && Calm(s) && s.main == Main(AtKeys(LoopTop), false, []) && Typeable(w) && w != []
    requires forall i :: 0 <= i < |s.slots| ==> !Matches(s.slots, w, i)
    ensures Reaches(c, s, e) && PlayInv(c, e) && e == Goto(s, AtTimer(CanSpawnWant))
  {
    var s1 := TypeLine(c, s, w);
    var s2 := SubmitStep(s1, SubmitWant).value;
    MainMoves(c, s, s1, ANY, s2);
    assert TargetUpTo(s2.slots, w, |s2.slots|) == -1;
    e := SubmitStep(s2, SubmitIn).value;
    MainMoves(c, s, s2, ANY, e);
  }

  // ---------- falling ----------

  lemma WordMoves(c: Config, s: State, m: State, t: nat, x: Choice, e: State)
    requires PlayInv(c, m) && t < |m.threads| && WordStep(c, m, t, x) == Some(e) && (s == m || Reaches(c, s, m))
    ensures Reaches(c, s, e) && PlayInv(c, e)
  {
    assert WordNext(c, m, t, e);
    NextKeepsPlayInv(c, m, e);
    if s == m { ReachesSelf(c, s); }
    ReachesStep(c, s, m, e);
  }

  const DROP := ANY.(drop := true)

  /** Thread t is at the top of its loop and its word is on the screen; no mutex is held, and the game is on. */
  predicate AtTop(s: State, t: nat) {
    && s.locks == FREE && !s.game.over && !s.signalled
    && t < |s.threads| && s.threads[t].pc == AtPoll(Top) && OnScreen(s, t)
  }

  /** Round the loop, up to the point where the time for a drop has come. */
  lemma PollPass(c: Config, s: State, t: nat) returns (e: State)
    requires PlayInv(c, s) && AtTop(s, t)
    ensures Reaches(c, s, e) && PlayInv(c, e) && e == Move(s, t, AtPoll(Choose))
  {
    var s1 := PollStep(s, t, Top, ANY).value;
    WordMoves(c, s, s, t, ANY, s1);
    var s2 := PollStep(s1, t, PollWant, ANY).value;
    WordMoves(c, s, s1, t, ANY, s2);
    var s3 := PollStep(s2, t, PollIn, ANY).value;
    WordMoves(c, s, s2, t, ANY, s3);
    var s4 := PollStep(s3, t, OverWant(true), ANY).value;
    WordMoves(c, s, s3, t, ANY, s4);
    e := PollStep(s4, t, OverIn(true), ANY).value;
    WordMoves(c, s, s4, t, ANY, e);
  }

  lemma IntervalPass(c: Config, s: State, t: nat) returns (e: State)
    requires PlayInv(c, s) && s.locks == FREE && t < |s.threads| && s.threads[t].pc == AtPoll(IntervalWant)
    ensures Reaches(c, s, e) && PlayInv(c, e) && e == Move(s, t, AtPoll(Tick))
  {
    var s1 := PollStep(s, t, IntervalWant, ANY).value;
    WordMoves(c, s, s, t, ANY, s1);
    e := PollStep(s1, t, IntervalIn, ANY).value;
    WordMoves(c, s, s1, t, ANY, e);
  }

  lemma ChoosePass(c: Config, s: State, t: nat) returns (e: State)
    requires PlayInv(c, s) && s.locks == FREE && t < |s.threads| && s.threads[t].pc == AtPoll(Choose)
    ensures Reaches(c, s, e) && PlayInv(c, e) && e == Move(s, t, AtPoll(Tick))
  {
    var m := PollStep(s, t, Choose, ANY).value;
    WordMoves(c, s, s, t, ANY, m);
    e := m;
    if s.slots[s.threads[t].slot].wtype == Normal {
      e := IntervalPass(c, m, t);
      ReachesTrans(c, s, m, e);
    }
  }

  lemma TickPass(c: Config, s: State, t: nat) returns (e: State)
    requires PlayInv(c, s) && s.locks == FREE && t < |s.threads| && s.threads[t].pc == AtPoll(Choose)
    ensures Reaches(c, s, e) && PlayInv(c, e) && e == Move(s, t, AtDrop(DropWant))
  {
    var m := ChoosePass(c, s, t);
    e := PollStep(m, t, Tick, DROP).value;
    WordMoves(c, s, m, t, DROP, e);
  }

  lemma EnterDrop(c: Config, s: State, t: nat) returns (e: State)
    requires PlayInv(c, s) && s.locks == FREE && t < |s.threads| && s.threads[t].pc == AtDrop(DropWant)
    ensures Reaches(c, s, e) && PlayInv(c, e)
    ensures e == Move(s, t, AtDrop(DropIn)).(locks := FREE.(words := WordThread(t)))
  {
    e := DropStep(c, s, t, DropWant).value;
    WordMoves(c, s, s, t, ANY, e);
  }

  lemma DropRow(c: Config, s: State, t: nat) returns (e: State)
    requires PlayInv(c, s) && OnScreen(s, t) && s.threads[t].pc == AtDrop(DropIn)
    requires s.slots[s.threads[t].slot].y + 1 < c.height
    ensures Reaches(c, s, e) && PlayInv(c, e)
    ensures var i := s.threads[t].slot;
            e == Move(s, t, AtDrop(DropOut)).(slots := s.slots[i := s.slots[i].(y := s.slots[i].y + 1)])
  {
    DropInIs(c, s, t);
    e := DropStep(c, s, t, DropIn).value;
    WordMoves(c, s, s, t, ANY, e);
  }

  lemma DropInIs(c: Config, s: State, t: nat)
    requires Shape(s) && OnScreen(s, t) && s.threads[t].pc == AtDrop(DropIn)
    requires s.slots[s.threads[t].slot].y + 1 < c.height
    ensures var i := s.threads[t].slot;
            DropStep(c, s, t, DropIn)
            == Some(Move(s, t, AtDrop(DropOut)).(slots := s.slots[i := s.slots[i].(y := s.slots[i].y + 1)]))
  {
  }

  lemma LeaveDrop(c: Config, s: State, t: nat) returns (e: State)
    requires PlayInv(c, s) && t < |s.threads| && s.threads[t].pc == AtDrop(DropOut)
    ensures Reaches(c, s, e) && PlayInv(c, e) && e == Move(s, t, AtPoll(Top)).(locks := s.locks.(words := Nobody))
  {
    e := DropStep(c, s, t, DropOut).value;
    WordMoves(c, s, s, t, ANY, e);
  }

  /** The word is one row further down. */
  lemma RowDown(c: Config, s: State, t: nat) returns (e: State)
    requires PlayInv(c, s) && s.locks == FREE && OnScreen(s, t) && s.threads[t].pc == AtDrop(DropWant)
    requires s.slots[s.threads[t].slot].y + 1 < c.height
    ensures Reaches(c, s, e) && PlayInv(c, e)
    ensures var i := s.threads[t].slot;
            e == Move(s, t, AtPoll(Top)).(slots := s.slots[i := s.slots[i].(y := s.slots[i].y + 1)])
  {
    var s1 := EnterDrop(c, s, t);
    var s2 := DropRow(c, s1, t);
    ReachesTrans(c, s, s1, s2);
    e := LeaveDrop(c, s2, t);
    ReachesTrans(c, s, s2, e);
  }

  /** Word t, which showed in slot i, has fallen: it is off the screen and out of the table, and has cost a life unless
      it is a kill word. Nothing else in the game has changed. */
  predicate HasFallen(c: Config, s: State, t: nat, e: State)
    requires OnScreen(s, t)
  {
    var i := s.threads[t].slot;
    && e.slots == s.slots[i := s.slots[i].(y := c.height, active := false)]
    && e.game.table == s.game.table - {s.slots[i].text} && e.game.score == s.game.score
    && e.game.lives == (if s.slots[i].wtype == Kill then s.game.lives else s.game.lives - 1)
    && (e.game.over <==> e.game.lives == 0)
  }

  /** It leaves the bottom row. */
  lemma LeaveScreen(c: Config, s: State, t: nat) returns (e: State)
    requires PlayInv(c, s) && s.locks == FREE && OnScreen(s, t) && s.threads[t].pc == AtDrop(DropWant)
    requires s.slots[s.threads[t].slot].y + 1 == c.height
    ensures Reaches(c, s, e) && PlayInv(c, e) && e.locks == FREE.(words := WordThread(t)) && e.main == s.main
    ensures var i := s.threads[t].slot; e.slots == s.slots[i := s.slots[i].(y := c.height, active := false)]
    ensures e.threads == Move(s, t, AtDrop(FallHashWant)).threads && e.game == s.game
  {
    var s1 := EnterDrop(c, s, t);
    e := DropStep(c, s1, t, DropIn).value;
    WordMoves(c, s, s1, t, ANY, e);
  }

  lemma LeaveTable(c: Config, s: State, t: nat) returns (e: State)
    requires PlayInv(c, s) && s.locks == FREE.(words := WordThread(t))
    requires t < |s.threads| && s.threads[t].pc == AtDrop(FallHashWant)
    ensures Reaches(c, s, e) && PlayInv(c, e) && e.locks == s.locks && e.slots == s.slots && e.main == s.main
    ensures e.threads == Move(s, t, AtDrop(FallStateWant)).threads
    ensures e.game == s.game.(table := s.game.table - {s.slots[s.threads[t].slot].text})
  {
    var s1 := DropStep(c, s, t, FallHashWant).value;
    WordMoves(c, s, s, t, ANY, s1);
    e := DropStep(c, s1, t, FallHashIn).value;
    WordMoves(c, s, s1, t, ANY, e);
  }

  lemma Landing(c: Config, s: State, t: nat) returns (e: State)
    requires PlayInv(c, s) && s.locks == FREE.(words := WordThread(t))
    requires t < |s.threads| && s.threads[t].pc == AtDrop(FallStateWant) && !s.game.over && s.game.lives > 0
    ensures Reaches(c, s, e) && PlayInv(c, e) && e.slots == s.slots
    ensures e.game.table == s.game.table && e.game.score == s.game.score
    ensures e.game.lives == (if s.slots[s.threads[t].slot].wtype == Kill then s.game.lives else s.game.lives - 1)
    ensures e.game.over <==> e.game.lives == 0
  {
    var s1 := DropStep(c, s, t, FallStateWant).value;
    WordMoves(c, s, s, t, ANY, s1);
    var s2 := DropStep(c, s1, t, FallStateIn).value;
    WordMoves(c, s, s1, t, ANY, s2);
    e := DropStep(c, s2, t, DropOut).value;
    WordMoves(c, s, s2, t, ANY, e);
  }

  lemma FallOff(c: Config, s: State, t: nat) returns (e: State)
    requires PlayInv(c, s) && s.locks == FREE && OnScreen(s, t) && s.threads[t].pc == AtDrop(DropWant)
    requires s.slots[s.threads[t].slot].y + 1 == c.height && !s.game.over && s.game.lives > 0
    ensures Reaches(c, s, e) && PlayInv(c, e) && HasFallen(c, s, t, e)
  {
    var s1 := LeaveScreen(c, s, t);
    var s2 := LeaveTable(c, s1, t);
    ReachesTrans(c, s, s1, s2);
    e := Landing(c, s2, t);
    ReachesTrans(c, s, s2, e);
  }

  /** Whatever word is on the screen, left alone it falls row by row to the bottom. */
  lemma {:induction false} WordCanFall(c: Config, s: State, t: nat) returns (e: State)
    requires PlayInv(c, s) && AtTop(s, t) && s.slots[s.threads[t].slot].y < c.height && s.game.lives > 0
    ensures Reaches(c, s, e) && PlayInv(c, e) && HasFallen(c, s, t, e)
    decreases c.height - s.slots[s.threads[t].slot].y
  {
    var s1 := PollPass(c, s, t);
    var s2 := TickPass(c, s1, t);
    ReachesTrans(c, s, s1, s2);
    if s.slots[s.threads[t].slot].y + 1 == c.height {
      e := FallOff(c, s2, t);
      ReachesTrans(c, s, s2, e);
    } else {
      var s3 := RowDown(c, s2, t);
      ReachesTrans(c, s, s2, s3);
      e := WordCanFall(c, s3, t);
      ReachesTrans(c, s, s3, e);
    }
  }
}
