/** The books of a game: every word is resolved exactly once, the score is what was typed, the lives are what fell,
    and almost nothing happens after the game is over. */
module GameBooks {
  import opened Bytes
  import opened Game
  import opened GameLocks
  import opened GameProgress

  // ---------- readings of the event log ----------

  predicate Resolves(e: Event, t: nat) {
    !e.Landed? && e.id == t
  }

  /** How many events end word t: typed, fallen, abandoned or never started. */
  function Resolutions(log: seq<Event>, t: nat): nat {
    if log == [] then 0
    else Resolutions(log[..|log| - 1], t) + (if Resolves(log[|log| - 1], t) then 1 else 0)
  }

  function Falls(log: seq<Event>, t: nat): nat {
    if log == [] then 0
    else Falls(log[..|log| - 1], t) + (if log[|log| - 1] == Fell(t) then 1 else 0)
  }

  function Landings(log: seq<Event>, t: nat): nat {
    if log == [] then 0
    else Landings(log[..|log| - 1], t) + (if log[|log| - 1].Landed? && log[|log| - 1].id == t then 1 else 0)
  }

  predicate CostsLife(e: Event) {
    e.Landed? && e.wtype != Kill && !e.over
  }

  /** Words that were not kill words and fell before the game was over. */
  function Charges(log: seq<Event>): nat {
    if log == [] then 0 else Charges(log[..|log| - 1]) + (if CostsLife(log[|log| - 1]) then 1 else 0)
  }

  function Earned(e: Event): int {
    if e.Typed? then Points(e.wtype, e.word) else 0
  }

  /** The sum over the submitted words: length, plus 50 for a bonus word, nothing for a kill word. */
  function ScoreOf(log: seq<Event>): int {
    if log == [] then 0 else ScoreOf(log[..|log| - 1]) + Earned(log[|log| - 1])
  }

  predicate KillTyped(log: seq<Event>) {
    log != [] && (KillTyped(log[..|log| - 1]) || (log[|log| - 1].Typed? && log[|log| - 1].wtype == Kill))
  }

  lemma LogGrows(log: seq<Event>, e: Event)
    ensures forall t: nat :: Resolutions(log + [e], t) == Resolutions(log, t) + (if Resolves(e, t) then 1 else 0)
    ensures forall t: nat :: Falls(log + [e], t) == Falls(log, t) + (if e == Fell(t) then 1 else 0)
    ensures forall t: nat :: Landings(log + [e], t) == Landings(log, t) + (if e.Landed? && e.id == t then 1 else 0)
    ensures Charges(log + [e]) == Charges(log) + (if CostsLife(e) then 1 else 0)
    ensures ScoreOf(log + [e]) == ScoreOf(log) + Earned(e)
    ensures KillTyped(log + [e]) == (KillTyped(log) || (e.Typed? && e.wtype == Kill))
  {
    assert (log + [e])[..|log|] == log;
  }

  // ---------- the invariants ----------

  /** Word t is on the screen. */
  predicate OnScreen(s: State, t: nat) {
    && t < |s.threads| && s.threads[t].slot < |s.slots|
    && s.slots[s.threads[t].slot].inst == Some(t) && s.slots[s.threads[t].slot].active
  }

  /** Every spawned word is on the screen or has been resolved, once; nothing else has been. */
  ghost predicate Once(s: State) {
    forall t: nat :: Resolutions(s.hist.log, t) + One(OnScreen(s, t)) == One(t < |s.threads|)
  }

  predicate InFlight(pc: MainPc) {
    pc.AtSubmit? && !pc.sp.SubmitWant? && !pc.sp.SubmitIn?
  }

  /** Points of a word already taken off the screen but not yet credited. */
  function PendingPoints(pc: MainPc, slots: seq<Slot>): int {
    if InFlight(pc) && pc.sp.i < |slots| then Points(pc.sp.wtype, slots[pc.sp.i].text) else 0
  }

  ghost predicate Money(s: State) {
    && s.game.score + PendingPoints(s.main.pc, s.slots) == ScoreOf(s.hist.log)
    && (InFlight(s.main.pc) && s.main.pc.sp.i < |s.slots| ==>
          s.slots[s.main.pc.sp.i].text == s.main.input && (s.main.pc.sp.wtype == Kill ==> KillTyped(s.hist.log)))
  }

  predicate Falling(pc: WordPc) {
    pc.AtDrop? && (pc.dp.FallHashWant? || pc.dp.FallHashIn? || pc.dp.FallStateWant? || pc.dp.FallStateIn?)
  }

  /** Every fall takes its turn under the state lock once. */
  ghost predicate FallsLand(s: State) {
    forall t: nat ::
      Landings(s.hist.log, t) + One(t < |s.threads| && Falling(s.threads[t].pc)) == Falls(s.hist.log, t)
  }

  predicate Lives(s: State) {
    && s.game.lives == INITIAL_LIVES - Charges(s.hist.log) && s.game.lives >= 0
    && (!s.game.over ==> s.game.lives > 0)
    && (s.game.over ==> s.game.lives == 0 || s.signalled || KillTyped(s.hist.log))
  }

  predicate SignalSeen(pc: WordPc) {
    pc.AtPoll? && (pc.pp.SignalWant? || pc.pp.SignalIn?)
  }

  ghost predicate SignalsReal(s: State) {
    && (s.main.pc.AtKeys? && (s.main.pc.kp.QuitWant? || s.main.pc.kp.QuitIn?) ==> s.signalled)
    && (forall t :: 0 <= t < |s.threads| && SignalSeen(s.threads[t].pc) ==> s.signalled)
  }

  ghost predicate Heights(c: Config, s: State) {
    forall i :: 0 <= i < |s.slots| && s.slots[i].active ==> 0 <= s.slots[i].y < c.height
  }

  /** Main may still credit a word without looking at game_is_over again. */
  predicate MayCredit(pc: MainPc) {
    pc.AtSubmit?
  }

  /** Main may still place a word without looking at game_is_over again. */
  predicate MaySpawn(pc: MainPc) {
    pc == AtTimer(SpawnTimer(true)) || pc.AtPick?
  }

  /** Main will look at game_is_over before it decides to loop. */
  predicate BeforeFlag(pc: MainPc) {
    pc.AtKeys? && (pc.kp.LoopTop? || pc.kp.QuitWant? || pc.kp.QuitIn? || pc.kp.FlagWant? || pc.kp.FlagIn?)
  }

  predicate Ending(pc: MainPc) {
    (pc.AtDraw? && pc.final) || pc.AtSweep?
  }

  predicate LateOk(s: State) {
    && (!s.game.over ==> s.hist.lateCredits == 0 && s.hist.lateSpawns == 0 && s.hist.lateLoops == 0)
    && s.hist.lateCredits + s.hist.lateSpawns + One(s.game.over && (MayCredit(s.main.pc) || MaySpawn(s.main.pc))) <= 1
    && s.hist.lateLoops <= 1
    && (s.hist.lateLoops == 1 ==> BeforeFlag(s.main.pc) || s.main.quit || Ending(s.main.pc))
  }

  ghost predicate Books(c: Config, s: State) {
    Once(s) && Money(s) && FallsLand(s) && Lives(s) && SignalsReal(s) && Heights(c, s) && LateOk(s)
  }

  lemma InitBooks(c: Config)
    ensures Books(c, InitialState())
  {
  }

  // ---------- main's steps keep the books ----------

  predicate SameWord(a: Slot, b: Slot) {
    b.active == a.active && (a.active ==> b.inst == a.inst && b.y == a.y)
  }

  predicate Quitting(pc: MainPc) {
    pc.AtKeys? && (pc.kp.QuitWant? || pc.kp.QuitIn?)
  }

  /** A step of main that leaves log, threads, money and every active word alone, and ends the game only on a signal. */
  ghost predicate Unremarkable(s: State, s': State) {
    && s'.hist.log == s.hist.log && s'.threads == s.threads && s'.signalled == s.signalled
    && s'.game.score == s.game.score && s'.game.lives == s.game.lives
    && (s'.game.over == s.game.over || (s'.game.over && s.signalled))
    && |s'.slots| == |s.slots|
    && (forall i :: 0 <= i < |s.slots| ==> SameWord(s.slots[i], s'.slots[i]))
    && !InFlight(s.main.pc) && !InFlight(s'.main.pc)
    && (Quitting(s'.main.pc) ==> s.signalled)
  }

  lemma UnremarkableBooks(c: Config, s: State, s': State)
    requires Shape(s) && Books(c, s) && Unremarkable(s, s') && LateOk(s')
    ensures Books(c, s')
  {
    assert forall t: nat :: OnScreen(s', t) == OnScreen(s, t);
  }

  lemma KeysLate(s: State, kp: KeysPc, x: Choice, s': State)
    requires LateOk(s) && s.main.pc == AtKeys(kp) && KeysStep(s, kp, x) == Some(s')
    ensures LateOk(s')
  {
  }

  lemma KeysBooks(c: Config, s: State, kp: KeysPc, x: Choice, s': State)
    requires Inv(s) && Books(c, s) && s.main.pc == AtKeys(kp) && KeysStep(s, kp, x) == Some(s')
    ensures Books(c, s')
  {
    KeysLocks(s, kp, x, s');
    KeysLate(s, kp, x, s');
    assert Quitting(s.main.pc) ==> s.signalled;
    UnremarkableBooks(c, s, s');
  }

  lemma TimerBooks(c: Config, s: State, tp: TimerPc, x: Choice, s': State)
    requires Inv(s) && Books(c, s) && s.main.pc == AtTimer(tp) && TimerStep(c, s, tp, x) == Some(s')
    ensures Books(c, s')
  {
    TimerLocks(c, s, tp, x, s');
    UnremarkableBooks(c, s, s');
  }

  lemma DrawBooks(c: Config, s: State, dp: DrawPc, final: bool, s': State)
    requires Inv(s) && Books(c, s) && s.main.pc == AtDraw(dp, final) && DrawStep(s, dp, final) == Some(s')
    ensures Books(c, s')
  {
    DrawLocks(s, dp, final, s');
    UnremarkableBooks(c, s, s');
  }

  lemma ReapBooks(c: Config, s: State, rp: ReapPc, s': State)
    requires Inv(s) && Books(c, s) && s.main.pc == AtReap(rp) && ReapStep(s, rp) == Some(s')
    ensures Books(c, s')
  {
    if rp.Reap? && rp.i < |s.slots| { assert SlotOk(s.main.pc, s.threads, s.slots[rp.i], rp.i); }
    UnremarkableBooks(c, s, s');
  }

  lemma SweepQuiet(s: State, wp: SweepPc, s': State)
    requires Inv(s) && LateOk(s) && s.main.pc == AtSweep(wp) && SweepStep(s, wp) == Some(s')
    ensures Unremarkable(s, s') && LateOk(s')
  {
    if wp.Join? && wp.i < |s.slots| { assert SlotOk(s.main.pc, s.threads, s.slots[wp.i], wp.i); }
  }

  lemma SweepBooks(c: Config, s: State, wp: SweepPc, s': State)
    requires Inv(s) && Books(c, s) && s.main.pc == AtSweep(wp) && SweepStep(s, wp) == Some(s')
    ensures Books(c, s')
  {
    SweepQuiet(s, wp, s');
    UnremarkableBooks(c, s, s');
  }

  /** A word that leaves the screen with one resolving event is still counted once. */
  lemma LeaveOnce(s: State, s': State, e: Event)
    requires Once(s) && !e.Landed? && OnScreen(s, e.id)
    requires |s'.threads| == |s.threads| && s'.hist.log == s.hist.log + [e]
    requires forall t: nat :: OnScreen(s', t) == (OnScreen(s, t) && t != e.id)
    ensures Once(s')
  {
    LogGrows(s.hist.log, e);
    assert Resolutions(s.hist.log, e.id) + One(OnScreen(s, e.id)) == One(e.id < |s.threads|);
  }

  /** Taking one active slot off the screen takes off its word and no other. */
  lemma SlotLeaves(s: State, s': State, i: nat)
    requires Inv(s) && i < |s.slots| && s.slots[i].active
    requires |s'.threads| == |s.threads| && |s'.slots| == |s.slots| && !s'.slots[i].active
    requires forall t :: 0 <= t < |s.threads| ==> s'.threads[t].slot == s.threads[t].slot
    requires forall j :: 0 <= j < |s.slots| && j != i ==> s'.slots[j] == s.slots[j]
    ensures OnScreen(s, s.slots[i].inst.value)
    ensures forall t: nat :: OnScreen(s', t) == (OnScreen(s, t) && t != s.slots[i].inst.value)
  {
    assert SlotOk(s.main.pc, s.threads, s.slots[i], i);
  }

  /** A word is typed: it leaves the screen, and its points wait to be credited. */
  lemma TypedBooks(c: Config, s: State, r: nat, s': State)
    requires Inv(s) && Books(c, s) && s.main.pc == AtSubmit(SubmitIn)
    requires r < |s.slots| && Matches(s.slots, s.main.input, r)
    requires s' == Goto(s, AtSubmit(TypedHashWant(r, s.slots[r].wtype)))
                   .(slots := s.slots[r := s.slots[r].(active := false)],
                     hist := Logged(s.hist, Typed(s.slots[r].inst.value, s.slots[r].wtype, s.main.input)))
    ensures Books(c, s')
  {
    var slot := s.slots[r];
    var e := Typed(slot.inst.value, slot.wtype, s.main.input);
    SlotLeaves(s, s', r);
    LeaveOnce(s, s', e);
    LogGrows(s.hist.log, e);
  }

  lemma CreditBooks(c: Config, s: State, i: nat, wtype: WordType, s': State)
    requires Inv(s) && Books(c, s) && s.main.pc == AtSubmit(CreditIn(i, wtype))
    requires SubmitStep(s, CreditIn(i, wtype)) == Some(s')
    ensures Books(c, s')
  {
    assert forall t: nat :: OnScreen(s', t) == OnScreen(s, t);
  }

  /** Main carries a typed word to its credit. */
  lemma CarryBooks(c: Config, s: State, s': State)
    requires Shape(s) && Books(c, s) && InFlight(s.main.pc) && InFlight(s'.main.pc)
    requires s'.main.pc.sp.i == s.main.pc.sp.i && s'.main.pc.sp.wtype == s.main.pc.sp.wtype
    requires s'.main.input == s.main.input && s'.main.quit == s.main.quit
    requires SameData(s, s'.(game := s'.game.(table := s.game.table)))
    ensures Books(c, s')
  {
    assert forall t: nat :: OnScreen(s', t) == OnScreen(s, t);
  }

  lemma SubmitBooks(c: Config, s: State, sp: SubmitPc, s': State)
    requires Inv(s) && Books(c, s) && s.main.pc == AtSubmit(sp) && SubmitStep(s, sp) == Some(s')
    ensures Books(c, s')
  {
    match sp
    case SubmitWant => UnremarkableBooks(c, s, s');
    case SubmitIn =>
      var r := TargetUpTo(s.slots, s.main.input, |s.slots|);
      if r == -1 { UnremarkableBooks(c, s, s'); } else { TypedBooks(c, s, r, s'); }
    case CreditIn(i, wtype) => CreditBooks(c, s, i, wtype, s');
    case _ => CarryBooks(c, s, s');
  }

  lemma PlaceBooks(c: Config, s: State, i: nat, pick: Bytes, x: Choice, s': State)
    requires ValidConfig(c) && Inv(s) && Books(c, s) && s.main.pc == AtPick(Place(i, pick))
    requires PickStep(c, s, Place(i, pick), x) == Some(s')
    ensures Books(c, s')
  {
    assert SlotOk(s.main.pc, s.threads, s.slots[i], i);
    assert forall t: nat :: OnScreen(s', t) == (OnScreen(s, t) || t == |s.threads|);
  }

  lemma PickQuiet(c: Config, s: State, pp: PickPc, x: Choice, s': State)
    requires Inv(s) && LateOk(s) && s.main.pc == AtPick(pp) && PickStep(c, s, pp, x) == Some(s') && !pp.Place?
    ensures Unremarkable(s, s') && LateOk(s')
  {
  }

  lemma PickBooks(c: Config, s: State, pp: PickPc, x: Choice, s': State)
    requires ValidConfig(c) && Inv(s) && Books(c, s) && s.main.pc == AtPick(pp) && PickStep(c, s, pp, x) == Some(s')
    ensures Books(c, s')
  {
    if pp.Place? {
      PlaceBooks(c, s, pp.i, pp.pick, x, s');
    } else {
      PickQuiet(c, s, pp, x, s');
      UnremarkableBooks(c, s, s');
    }
  }

  lemma StartBooks(c: Config, s: State, i: nat, x: Choice, s': State)
    requires Inv(s) && Books(c, s) && s.main.pc == AtCreate(Create(i)) && CreateStep(s, Create(i), x) == Some(s')
    requires x.created
    ensures Books(c, s')
  {
    assert SlotOk(s.main.pc, s.threads, s.slots[i], i);
    assert forall t: nat :: OnScreen(s', t) == OnScreen(s, t);
  }

  /** Thread creation failed for word t, just placed in slot i. */
  lemma FailBooks(c: Config, s: State, i: nat, t: nat, s': State)
    requires Shape(s) && Books(c, s) && i < |s.slots| && s.slots[i].inst == Some(t) && s.slots[i].active
    requires t < |s.threads| && s.threads[t] == Thread(i, NotStarted) && s.main.pc == AtCreate(Create(i))
    requires s'.slots == s.slots[i := s.slots[i].(active := false)]
    requires s'.threads == s.threads[t := Thread(i, NeverCreated)]
    requires s'.main == s.main.(pc := AtCreate(UndoWant(i))) && s'.hist == Logged(s.hist, Failed(t))
    requires s'.game == s.game && s'.signalled == s.signalled
    ensures Books(c, s')
  {
    LogGrows(s.hist.log, Failed(t));
    assert forall u: nat :: OnScreen(s', u) == (OnScreen(s, u) && u != t);
    assert forall u: nat :: u < |s.threads| ==> Falling(s'.threads[u].pc) == Falling(s.threads[u].pc);
  }

  lemma CreateQuiet(s: State, cp: CreatePc, x: Choice, s': State)
    requires Inv(s) && LateOk(s) && s.main.pc == AtCreate(cp) && CreateStep(s, cp, x) == Some(s') && !cp.Create?
    ensures Unremarkable(s, s') && LateOk(s')
  {
  }

  lemma CreateBooks(c: Config, s: State, cp: CreatePc, x: Choice, s': State)
    requires Inv(s) && Books(c, s) && s.main.pc == AtCreate(cp) && CreateStep(s, cp, x) == Some(s')
    ensures Books(c, s')
  {
    if !cp.Create? {
      CreateQuiet(s, cp, x, s');
      UnremarkableBooks(c, s, s');
    } else if x.created {
      StartBooks(c, s, cp.i, x, s');
    } else {
      assert SlotOk(s.main.pc, s.threads, s.slots[cp.i], cp.i);
      FailBooks(c, s, cp.i, s.slots[cp.i].inst.value, s');
    }
  }

  // ---------- word threads' steps keep the books ----------

  /** A word thread's step that logs nothing and takes no word off the screen. */
  predicate QuietWord(c: Config, s: State, t: nat, s': State)
    requires Shape(s) && t < |s.threads|
  {
    && WordEffect(s, t, s') && s'.hist == s.hist
    && var slot := s.slots[s.threads[t].slot]; var slot' := s'.slots[s.threads[t].slot];
    && slot'.active == slot.active && (slot.active && 0 <= slot.y < c.height ==> 0 <= slot'.y < c.height)
    && s'.game.score == s.game.score && s'.game.lives == s.game.lives
    && (s'.game.over == s.game.over || (s'.game.over && SignalSeen(s.threads[t].pc)))
    && Falling(s'.threads[t].pc) == Falling(s.threads[t].pc)
    && (SignalSeen(s'.threads[t].pc) ==> s.signalled)
  }

  lemma QuietWordBooks(c: Config, s: State, t: nat, s': State)
    requires Inv(s) && Books(c, s) && t < |s.threads| && QuietWord(c, s, t, s')
    ensures Books(c, s')
  {
    assert forall u: nat :: OnScreen(s', u) == OnScreen(s, u);
    assert forall u: nat :: u < |s.threads| ==> Falling(s'.threads[u].pc) == Falling(s.threads[u].pc);
  }

  /** Word t leaves the screen, by a fall or because the game is over. */
  predicate LeavesScreen(s: State, t: nat, s': State)
    requires Shape(s) && t < |s.threads|
  {
    && WordEffect(s, t, s') && s'.game == s.game
    && s.slots[s.threads[t].slot].active && !s'.slots[s.threads[t].slot].active
    && !Falling(s.threads[t].pc) && !SignalSeen(s'.threads[t].pc)
    && s'.hist == Logged(s.hist, if Falling(s'.threads[t].pc) then Fell(t) else Abandoned(t))
  }

  lemma LeavesLands(s: State, t: nat, s': State)
    requires Shape(s) && FallsLand(s) && t < |s.threads| && LeavesScreen(s, t, s')
    ensures FallsLand(s')
  {
    LogGrows(s.hist.log, if Falling(s'.threads[t].pc) then Fell(t) else Abandoned(t));
    assert forall u: nat :: u < |s.threads| && u != t ==> Falling(s'.threads[u].pc) == Falling(s.threads[u].pc);
  }

  lemma LeavesRest(c: Config, s: State, t: nat, s': State)
    requires Shape(s) && Books(c, s) && t < |s.threads| && LeavesScreen(s, t, s')
    ensures Money(s') && Lives(s') && SignalsReal(s') && Heights(c, s') && LateOk(s')
  {
    LogGrows(s.hist.log, if Falling(s'.threads[t].pc) then Fell(t) else Abandoned(t));
  }

  lemma LeavesScreenBooks(c: Config, s: State, t: nat, s': State)
    requires Inv(s) && Books(c, s) && t < |s.threads| && LeavesScreen(s, t, s')
    requires s.slots[s.threads[t].slot].inst == Some(t)
    ensures Books(c, s')
  {
    SlotLeaves(s, s', s.threads[t].slot);
    LeaveOnce(s, s', if Falling(s'.threads[t].pc) then Fell(t) else Abandoned(t));
    LeavesLands(s, t, s');
    LeavesRest(c, s, t, s');
  }

  lemma LandedBooks(c: Config, s: State, t: nat, s': State)
    requires Inv(s) && Books(c, s) && t < |s.threads| && s.threads[t].pc == AtDrop(FallStateIn)
    requires DropStep(c, s, t, FallStateIn) == Some(s')
    ensures Books(c, s')
  {
    LogGrows(s.hist.log, Landed(t, s.slots[s.threads[t].slot].wtype, s.game.over));
    assert forall u: nat :: OnScreen(s', u) == OnScreen(s, u);
  }

  lemma PollBooks(c: Config, s: State, t: nat, pp: PollPc, x: Choice, s': State)
    requires Inv(s) && Books(c, s) && t < |s.threads| && s.threads[t].pc == AtPoll(pp)
    requires PollStep(s, t, pp, x) == Some(s')
    ensures Books(c, s')
  {
    PollEffect(s, t, pp, x, s');
    QuietWordBooks(c, s, t, s');
  }

  lemma DropBooks(c: Config, s: State, t: nat, dp: DropPc, s': State)
    requires Inv(s) && Books(c, s) && t < |s.threads| && s.threads[t].pc == AtDrop(dp)
    requires DropStep(c, s, t, dp) == Some(s')
    ensures Books(c, s')
  {
    DropEffect(c, s, t, dp, s');
    if dp.FallStateIn? {
      LandedBooks(c, s, t, s');
    } else if dp.DropIn? && s.slots[s.threads[t].slot].active && s.slots[s.threads[t].slot].y + 1 >= c.height {
      OwnSlot(s, t);
      LeavesScreenBooks(c, s, t, s');
    } else {
      QuietWordBooks(c, s, t, s');
    }
  }

  lemma ExitBooks(c: Config, s: State, t: nat, ep: ExitPc, s': State)
    requires Inv(s) && Books(c, s) && t < |s.threads| && s.threads[t].pc == AtExit(ep) && ExitStep(s, t, ep) == Some(s')
    ensures Books(c, s')
  {
    ExitEffect(s, t, ep, s');
    if ep.ExitIn? && s.slots[s.threads[t].slot].active {
      OwnSlot(s, t);
      LeavesScreenBooks(c, s, t, s');
    } else {
      QuietWordBooks(c, s, t, s');
    }
  }

  /** A thread that is not past its last unlock works on its own word. */
  lemma OwnSlot(s: State, t: nat)
    requires Inv(s) && t < |s.threads| && !Unborn(s.threads[t].pc) && !PastLastUnlock(s.threads[t].pc)
    ensures s.slots[s.threads[t].slot].tid == Some(t) && s.slots[s.threads[t].slot].inst == Some(t)
  {
    assert ThreadOk(s.main.pc, s.slots, s.threads[t], t);
    assert SlotOk(s.main.pc, s.threads, s.slots[s.threads[t].slot], s.threads[t].slot);
  }

  // ---------- every run keeps the books ----------

  ghost predicate GameInv(c: Config, s: State) {
    PlayInv(c, s) && Books(c, s)
  }

  lemma MainKeepsBooks(c: Config, s: State, x: Choice, s': State)
    requires ValidConfig(c) && GameInv(c, s) && MainStep(c, s, x) == Some(s')
    ensures Books(c, s')
  {
    match s.main.pc
    case AtKeys(kp) => KeysBooks(c, s, kp, x, s');
    case AtSubmit(sp) => SubmitBooks(c, s, sp, s');
    case AtTimer(tp) => TimerBooks(c, s, tp, x, s');
    case AtPick(pp) => PickBooks(c, s, pp, x, s');
    case AtCreate(cp) => CreateBooks(c, s, cp, x, s');
    case AtDraw(dp, final) => DrawBooks(c, s, dp, final, s');
    case AtReap(rp) => ReapBooks(c, s, rp, s');
    case AtSweep(wp) => SweepBooks(c, s, wp, s');
  }

  lemma WordKeepsBooks(c: Config, s: State, t: nat, x: Choice, s': State)
    requires GameInv(c, s) && t < |s.threads| && WordStep(c, s, t, x) == Some(s')
    ensures Books(c, s')
  {
    match s.threads[t].pc
    case AtPoll(pp) => PollBooks(c, s, t, pp, x, s');
    case AtDrop(dp) => DropBooks(c, s, t, dp, s');
    case AtExit(ep) => ExitBooks(c, s, t, ep, s');
    case _ =>
  }

  lemma NextKeepsGameInv(c: Config, s: State, s': State)
    requires ValidConfig(c) && GameInv(c, s) && Next(c, s, s')
    ensures GameInv(c, s')
  {
    NextKeepsPlayInv(c, s, s');
    if MainNext(c, s, s') {
      var x :| MainStep(c, s, x) == Some(s');
      MainKeepsBooks(c, s, x, s');
    } else if t: nat :| t < |s.threads| && WordNext(c, s, t, s') {
      var x :| WordStep(c, s, t, x) == Some(s');
      WordKeepsBooks(c, s, t, x, s');
    } else {
      assert forall t: nat :: OnScreen(s', t) == OnScreen(s, t);
    }
  }

  lemma {:induction false} RunKeepsGameInv(c: Config, tr: seq<State>, k: nat)
    requires ValidConfig(c) && Run(c, tr) && k < |tr|
    ensures GameInv(c, tr[k])
  {
    if k == 0 {
      InitInv();
      InitBooks(c);
    } else {
      RunKeepsGameInv(c, tr, k - 1);
      assert StepAt(c, tr, k);
      NextKeepsGameInv(c, tr[k - 1], tr[k]);
    }
  }
}
