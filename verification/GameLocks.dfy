/** Who holds which mutex at which program point, and which slot belongs to which thread. */
module GameLocks {
  import opened Bytes
  import opened Game

  // ---------- what a program point holds and waits for ----------

  predicate WordHolds(pc: WordPc, l: Lock) {
    match pc
    case AtPoll(pp) =>
      (l == WordsLock && pp.PollIn?) || (l == StateLock && (pp.SignalIn? || pp.OverIn? || pp.IntervalIn?))
    case AtDrop(dp) =>
      (l == WordsLock && !dp.DropWant?) || (l == StateLock && dp.FallStateIn?) || (l == HashLock && dp.FallHashIn?)
    case AtExit(ep) =>
      (l == WordsLock && !ep.ExitWant? && !ep.Returning? && !ep.Done?) || (l == HashLock && ep.ExitHashIn?)
    case _ => false
  }

  function WordWants(pc: WordPc): Option<Lock> {
    match pc
    case AtPoll(SignalWant) => Some(StateLock)
    case AtPoll(PollWant) => Some(WordsLock)
    case AtPoll(OverWant(_)) => Some(StateLock)
    case AtPoll(IntervalWant) => Some(StateLock)
    case AtDrop(DropWant) => Some(WordsLock)
    case AtDrop(FallHashWant) => Some(HashLock)
    case AtDrop(FallStateWant) => Some(StateLock)
    case AtExit(ExitWant) => Some(WordsLock)
    case AtExit(ExitHashWant) => Some(HashLock)
    case _ => None
  }

  predicate MainHolds(pc: MainPc, l: Lock) {
    match pc
    case AtKeys(kp) => l == StateLock && (kp.QuitIn? || kp.FlagIn? || kp.InputIn?)
    case AtSubmit(sp) =>
      || (l == WordsLock && (sp.SubmitIn? || sp.TypedHashWant? || sp.TypedHashIn? || sp.TypedOut?))
      || (l == StateLock && sp.CreditIn?) || (l == HashLock && sp.TypedHashIn?)
    case AtTimer(tp) => l == StateLock && tp.CanSpawnIn?
    case AtPick(pp) => (l == WordsLock && !pp.SpawnWant?) || (l == HashLock && pp.LookIn?)
    case AtCreate(cp) => l == WordsLock || (l == HashLock && (cp.AddIn? || cp.UndoIn?))
    case AtDraw(dp, _) =>
      || (l == ScreenLock && !dp.ScreenWant?) || (l == WordsLock && dp.DrawWordsIn?)
      || (l == StateLock && (dp.DrawStateIn? || dp.DrawLevelIn?))
    case AtReap(rp) => l == WordsLock && rp.Reap?
    case AtSweep(wp) => l == WordsLock && (wp.MarkIn? || wp.Join?)
  }

  function MainWants(pc: MainPc): Option<Lock> {
    match pc
    case AtKeys(QuitWant) => Some(StateLock)
    case AtKeys(FlagWant) => Some(StateLock)
    case AtKeys(InputWant(_)) => Some(StateLock)
    case AtSubmit(SubmitWant) => Some(WordsLock)
    case AtSubmit(TypedHashWant(_, _)) => Some(HashLock)
    case AtSubmit(CreditWant(_, _)) => Some(StateLock)
    case AtTimer(CanSpawnWant) => Some(StateLock)
    case AtPick(SpawnWant) => Some(WordsLock)
    case AtPick(LookWant(_, _, _)) => Some(HashLock)
    case AtCreate(AddWant(_)) => Some(HashLock)
    case AtCreate(UndoWant(_)) => Some(HashLock)
    case AtDraw(ScreenWant, _) => Some(ScreenLock)
    case AtDraw(DrawStateWant, _) => Some(StateLock)
    case AtDraw(DrawLevelWant, _) => Some(StateLock)
    case AtDraw(DrawWordsWant, _) => Some(WordsLock)
    case AtReap(ReapWant) => Some(WordsLock)
    case AtSweep(MarkWant) => Some(WordsLock)
    case AtSweep(JoinWant) => Some(WordsLock)
    case _ => None
  }

  /** The acquisition order: screen, then words, then game state and hash table. */
  function Rank(l: Lock): nat {
    match l case ScreenLock => 0 case WordsLock => 1 case StateLock => 2 case HashLock => 2
  }

  // ---------- invariant 1: each mutex is held exactly by the thread whose program point says so ----------

  predicate MainLocks(pc: MainPc, k: Locks) {
    && (k.screen == MainThread <==> MainHolds(pc, ScreenLock))
    && (k.words == MainThread <==> MainHolds(pc, WordsLock))
    && (k.state == MainThread <==> MainHolds(pc, StateLock))
    && (k.hash == MainThread <==> MainHolds(pc, HashLock))
  }

  predicate WordLocks(t: nat, pc: WordPc, k: Locks) {
    && k.screen != WordThread(t)
    && (k.words == WordThread(t) <==> WordHolds(pc, WordsLock))
    && (k.state == WordThread(t) <==> WordHolds(pc, StateLock))
    && (k.hash == WordThread(t) <==> WordHolds(pc, HashLock))
  }

  predicate HolderExists(n: nat, h: Holder) {
    h.WordThread? ==> h.id < n
  }

  predicate HoldersExist(n: nat, k: Locks) {
    HolderExists(n, k.screen) && HolderExists(n, k.words) && HolderExists(n, k.state) && HolderExists(n, k.hash)
  }

  ghost predicate LocksOk(s: State) {
    && MainLocks(s.main.pc, s.locks)
    && (forall t :: 0 <= t < |s.threads| ==> WordLocks(t, s.threads[t].pc, s.locks))
    && HoldersExist(|s.threads|, s.locks)
  }

  // ---------- invariant 2: which thread a slot belongs to ----------

  /** The exit section has marked the slot. */
  predicate AfterMark(pc: WordPc) {
    pc.AtExit? && !pc.ep.ExitWant? && !pc.ep.ExitIn?
  }

  predicate Unborn(pc: WordPc) {
    pc.NotStarted? || pc.NeverCreated?
  }

  /** Past its last unlock: all that is left is to return. */
  predicate PastLastUnlock(pc: WordPc) {
    pc == AtExit(Returning) || pc == AtExit(Done)
  }

  /** safe_game_cleanup has marked every slot. */
  predicate Sweeping(pc: MainPc) {
    pc.AtSweep? && (pc.wp.JoinWant? || pc.wp.Join? || pc.wp.Ended?)
  }

  /** Main has placed a word in slot i and not yet created (or failed to create) its thread. */
  predicate Placing(pc: MainPc, i: int) {
    pc.AtCreate? && (pc.cp.AddWant? || pc.cp.AddIn? || pc.cp.Create?) && pc.cp.i == i
  }

  /** Main takes slot i out of use: before it places a word, or after thread creation failed. */
  predicate Reserving(pc: MainPc, i: int) {
    || (pc.AtPick? && (pc.pp.Pick? || pc.pp.LookWant? || pc.pp.LookIn? || pc.pp.Place?) && pc.pp.i == i)
    || (pc.AtCreate? && (pc.cp.UndoWant? || pc.cp.UndoIn?) && pc.cp.i == i)
  }

  predicate SlotOk(pc: MainPc, threads: seq<Thread>, slot: Slot, i: int) {
    && (slot.tid.Some? ==>
          && slot.tid.value < |threads|
          && slot.inst == slot.tid
          && var wpc := threads[slot.tid.value].pc;
          && !Unborn(wpc)
          && (AfterMark(wpc) ==> slot.toRemove && !slot.active)
          && (slot.toRemove ==> AfterMark(wpc) || Sweeping(pc))
          && (Sweeping(pc) ==> slot.toRemove))
    && (slot.inst.Some? ==> slot.inst.value < |threads| && threads[slot.inst.value].slot == i)
    && (slot.active ==> slot.inst.Some? && (slot.tid == slot.inst || Placing(pc, i)))
    && (Placing(pc, i) ==>
          slot.tid.None? && slot.inst.Some? && slot.active && !slot.toRemove
          && threads[slot.inst.value].pc == NotStarted)
    && (Reserving(pc, i) ==> slot.tid.None? && !slot.active)
  }

  predicate ThreadOk(pc: MainPc, slots: seq<Slot>, th: Thread, t: nat) {
    && th.slot < |slots|
    && (!Unborn(th.pc) && !PastLastUnlock(th.pc) ==> slots[th.slot].tid == Some(t))
    && (th.pc.NotStarted? ==> Placing(pc, th.slot) && slots[th.slot].inst == Some(t))
  }

  ghost predicate Ownership(s: State) {
    && (forall i :: 0 <= i < |s.slots| ==> SlotOk(s.main.pc, s.threads, s.slots[i], i))
    && (forall t :: 0 <= t < |s.threads| ==> ThreadOk(s.main.pc, s.slots, s.threads[t], t))
  }

  ghost predicate Inv(s: State) {
    Shape(s) && LocksOk(s) && Ownership(s)
  }

  lemma InitInv()
    ensures Inv(InitialState())
  {
  }

  // ---------- invariant 1 is kept ----------

  /** h' came from h by `me` taking or giving back a lock, or h' == h. */
  predicate Touch(h: Holder, h': Holder, me: Holder) {
    h' == h || (h == Nobody && h' == me) || (h == me && h' == Nobody)
  }

  predicate Touches(k: Locks, k': Locks, me: Holder) {
    && Touch(k.screen, k'.screen, me) && Touch(k.words, k'.words, me)
    && Touch(k.state, k'.state, me) && Touch(k.hash, k'.hash, me)
  }

  /** Which part of the main loop can follow which. */
  predicate Flow(pc: MainPc, pc': MainPc) {
    match pc
    case AtKeys(_) => pc'.AtKeys? || pc'.AtSubmit? || pc'.AtTimer?
    case AtSubmit(_) => pc'.AtSubmit? || pc'.AtTimer?
    case AtTimer(_) => pc'.AtTimer? || pc' == AtPick(SpawnWant) || pc' == AtDraw(ScreenWant, false)
    case AtPick(_) => pc'.AtPick? || pc'.AtCreate? || pc' == AtDraw(ScreenWant, false)
    case AtCreate(_) => pc'.AtCreate? || pc' == AtDraw(ScreenWant, false)
    case AtDraw(_, _) => pc'.AtDraw? || pc' == AtReap(ReapWant) || pc' == AtSweep(FinalKey)
    case AtReap(_) => pc'.AtReap? || pc' == AtDraw(ScreenWant, true) || pc' == AtKeys(LoopTop)
    case AtSweep(_) => pc'.AtSweep?
  }

  predicate SameData(s: State, s': State) {
    && s'.threads == s.threads && s'.slots == s.slots && s'.game == s.game
    && s'.signalled == s.signalled && s'.hist == s.hist
  }

  lemma KeysData(s: State, kp: KeysPc, x: Choice, s': State)
    requires s.main.pc == AtKeys(kp) && KeysStep(s, kp, x) == Some(s')
    ensures Flow(s.main.pc, s'.main.pc) && SameData(s, s'.(game := if kp.QuitIn? then s.game else s'.game))
  {
  }

  lemma KeysLocks(s: State, kp: KeysPc, x: Choice, s': State)
    requires MainLocks(s.main.pc, s.locks) && s.main.pc == AtKeys(kp) && KeysStep(s, kp, x) == Some(s')
    ensures MainLocks(s'.main.pc, s'.locks) && Touches(s.locks, s'.locks, MainThread) && Flow(s.main.pc, s'.main.pc)
    ensures SameData(s, s'.(game := if kp.QuitIn? then s.game else s'.game))
  {
    KeysData(s, kp, x, s');
  }

  lemma SubmitLocks(s: State, sp: SubmitPc, s': State)
    requires Shape(s) && MainLocks(s.main.pc, s.locks) && s.main.pc == AtSubmit(sp) && SubmitStep(s, sp) == Some(s')
    ensures MainLocks(s'.main.pc, s'.locks) && Touches(s.locks, s'.locks, MainThread)
    ensures Flow(s.main.pc, s'.main.pc) && s'.threads == s.threads
  {
  }

  lemma TimerLocks(c: Config, s: State, tp: TimerPc, x: Choice, s': State)
    requires MainLocks(s.main.pc, s.locks) && s.main.pc == AtTimer(tp) && TimerStep(c, s, tp, x) == Some(s')
    ensures MainLocks(s'.main.pc, s'.locks) && Touches(s.locks, s'.locks, MainThread) && Flow(s.main.pc, s'.main.pc)
    ensures SameData(s, s')
  {
  }

  lemma PickLocks(c: Config, s: State, pp: PickPc, x: Choice, s': State)
    requires Shape(s) && MainLocks(s.main.pc, s.locks) && s.main.pc == AtPick(pp) && PickStep(c, s, pp, x) == Some(s')
    ensures MainLocks(s'.main.pc, s'.locks) && Touches(s.locks, s'.locks, MainThread) && Flow(s.main.pc, s'.main.pc)
  {
  }

  lemma CreateLocks(s: State, cp: CreatePc, x: Choice, s': State)
    requires Shape(s) && MainLocks(s.main.pc, s.locks) && s.main.pc == AtCreate(cp) && CreateStep(s, cp, x) == Some(s')
    ensures MainLocks(s'.main.pc, s'.locks) && Touches(s.locks, s'.locks, MainThread) && Flow(s.main.pc, s'.main.pc)
  {
  }

  lemma DrawData(s: State, dp: DrawPc, final: bool, s': State)
    requires s.main.pc == AtDraw(dp, final) && DrawStep(s, dp, final) == Some(s')
    ensures Flow(s.main.pc, s'.main.pc) && SameData(s, s') && s'.main == s.main.(pc := s'.main.pc)
  {
  }

  lemma DrawLocks(s: State, dp: DrawPc, final: bool, s': State)
    requires MainLocks(s.main.pc, s.locks) && s.main.pc == AtDraw(dp, final) && DrawStep(s, dp, final) == Some(s')
    ensures MainLocks(s'.main.pc, s'.locks) && Touches(s.locks, s'.locks, MainThread) && Flow(s.main.pc, s'.main.pc)
    ensures SameData(s, s') && s'.main == s.main.(pc := s'.main.pc)
  {
    DrawData(s, dp, final, s');
  }

  lemma ReapLocks(s: State, rp: ReapPc, s': State)
    requires Shape(s) && MainLocks(s.main.pc, s.locks) && s.main.pc == AtReap(rp) && ReapStep(s, rp) == Some(s')
    ensures MainLocks(s'.main.pc, s'.locks) && Touches(s.locks, s'.locks, MainThread)
    ensures Flow(s.main.pc, s'.main.pc) && s'.threads == s.threads
  {
  }

  lemma SweepLocks(s: State, wp: SweepPc, s': State)
    requires Shape(s) && MainLocks(s.main.pc, s.locks) && s.main.pc == AtSweep(wp) && SweepStep(s, wp) == Some(s')
    ensures MainLocks(s'.main.pc, s'.locks) && Touches(s.locks, s'.locks, MainThread)
    ensures Flow(s.main.pc, s'.main.pc) && s'.threads == s.threads
  {
  }

  lemma PollLocks(s: State, t: nat, pp: PollPc, x: Choice, s': State)
    requires Shape(s) && t < |s.threads| && s.threads[t].pc == AtPoll(pp) && PollStep(s, t, pp, x) == Some(s')
    requires WordLocks(t, s.threads[t].pc, s.locks)
    ensures s'.threads == s.threads[t := s'.threads[t]] && s'.main == s.main
    ensures WordLocks(t, s'.threads[t].pc, s'.locks) && Touches(s.locks, s'.locks, WordThread(t))
  {
  }

  lemma DropLocks(c: Config, s: State, t: nat, dp: DropPc, s': State)
    requires Shape(s) && t < |s.threads| && s.threads[t].pc == AtDrop(dp) && DropStep(c, s, t, dp) == Some(s')
    requires WordLocks(t, s.threads[t].pc, s.locks)
    ensures s'.threads == s.threads[t := s'.threads[t]] && s'.main == s.main
    ensures WordLocks(t, s'.threads[t].pc, s'.locks) && Touches(s.locks, s'.locks, WordThread(t))
  {
  }

  lemma ExitLocks(s: State, t: nat, ep: ExitPc, s': State)
    requires Shape(s) && t < |s.threads| && s.threads[t].pc == AtExit(ep) && ExitStep(s, t, ep) == Some(s')
    requires WordLocks(t, s.threads[t].pc, s.locks)
    ensures s'.threads == s.threads[t := s'.threads[t]] && s'.main == s.main
    ensures WordLocks(t, s'.threads[t].pc, s'.locks) && Touches(s.locks, s'.locks, WordThread(t))
  {
  }

  /** A polling thread gives the state mutex back in one step; on a signal it also sets game_is_over. */
  lemma StateGivenBack(s: State, v: nat, pp: PollPc, x: Choice, s': State)
    requires Shape(s) && v < |s.threads| && s.threads[v].pc == AtPoll(pp) && PollStep(s, v, pp, x) == Some(s')
    requires pp.SignalIn? || pp.OverIn? || pp.IntervalIn?
    ensures s'.locks == s.locks.(state := Nobody) && s'.slots == s.slots && s'.main == s.main
    ensures s'.signalled == s.signalled && s'.game == s.game.(over := s.game.over || pp.SignalIn?)
    ensures s'.threads == s.threads[v := s.threads[v].(pc := s'.threads[v].pc)]
    ensures s'.threads[v].pc in {AtPoll(PollWant), AtPoll(Choose), AtPoll(Tick), AtExit(ExitWant)}
  {
  }

  predicate HoldsNothing(pc: WordPc) {
    !WordHolds(pc, WordsLock) && !WordHolds(pc, StateLock) && !WordHolds(pc, HashLock)
  }

  /** Main changes or adds only threads that hold nothing. */
  ghost predicate ThreadsKeep(ths: seq<Thread>, ths': seq<Thread>) {
    && |ths| <= |ths'|
    && (forall t :: 0 <= t < |ths'| ==>
          (t < |ths| && ths'[t] == ths[t])
          || (HoldsNothing(ths'[t].pc) && (t < |ths| ==> HoldsNothing(ths[t].pc))))
  }

  lemma TouchKeepsLocks(s: State, s': State)
    requires LocksOk(s) && MainLocks(s'.main.pc, s'.locks) && Touches(s.locks, s'.locks, MainThread)
    requires ThreadsKeep(s.threads, s'.threads)
    ensures LocksOk(s')
  {
    forall t | 0 <= t < |s'.threads| ensures WordLocks(t, s'.threads[t].pc, s'.locks) {
      if t < |s.threads| { assert WordLocks(t, s.threads[t].pc, s.locks); }
    }
  }

  lemma PlaceKeepsThreads(c: Config, s: State, pp: PickPc, x: Choice, s': State)
    requires Inv(s) && s.main.pc == AtPick(pp) && PickStep(c, s, pp, x) == Some(s')
    ensures ThreadsKeep(s.threads, s'.threads)
  {
  }

  lemma CreateKeepsThreads(s: State, cp: CreatePc, x: Choice, s': State)
    requires Inv(s) && s.main.pc == AtCreate(cp) && CreateStep(s, cp, x) == Some(s')
    ensures ThreadsKeep(s.threads, s'.threads)
  {
    if cp.Create? { assert SlotOk(s.main.pc, s.threads, s.slots[cp.i], cp.i); }
  }

  lemma MainKeepsLocks(c: Config, s: State, x: Choice, s': State)
    requires Inv(s) && MainStep(c, s, x) == Some(s')
    ensures LocksOk(s') && Flow(s.main.pc, s'.main.pc)
  {
    match s.main.pc {
      case AtKeys(kp) => KeysLocks(s, kp, x, s');
      case AtSubmit(sp) => SubmitLocks(s, sp, s');
      case AtTimer(tp) => TimerLocks(c, s, tp, x, s');
      case AtPick(pp) => PickLocks(c, s, pp, x, s'); PlaceKeepsThreads(c, s, pp, x, s');
      case AtCreate(cp) => CreateLocks(s, cp, x, s'); CreateKeepsThreads(s, cp, x, s');
      case AtDraw(dp, final) => DrawLocks(s, dp, final, s');
      case AtReap(rp) => ReapLocks(s, rp, s');
      case AtSweep(wp) => SweepLocks(s, wp, s');
    }
    TouchKeepsLocks(s, s');
  }

  lemma WordKeepsLocks(c: Config, s: State, t: nat, x: Choice, s': State)
    requires Inv(s) && t < |s.threads| && WordStep(c, s, t, x) == Some(s')
    ensures LocksOk(s')
  {
    assert WordLocks(t, s.threads[t].pc, s.locks);
    match s.threads[t].pc {
      case AtPoll(pp) => PollLocks(s, t, pp, x, s');
      case AtDrop(dp) => DropLocks(c, s, t, dp, s');
      case AtExit(ep) => ExitLocks(s, t, ep, s');
      case _ =>
    }
    forall u | 0 <= u < |s'.threads| ensures WordLocks(u, s'.threads[u].pc, s'.locks) {
      assert WordLocks(u, s.threads[u].pc, s.locks);
    }
  }

  // ---------- invariant 2 is kept ----------

  lemma QuietKeepsOwnership(s: State, s': State)
    requires Inv(s) && s'.threads == s.threads && s'.slots == s.slots
    requires forall i :: Placing(s'.main.pc, i) == Placing(s.main.pc, i)
    requires forall i :: Reserving(s'.main.pc, i) ==> Reserving(s.main.pc, i)
    requires Sweeping(s.main.pc) == Sweeping(s'.main.pc)
    ensures Ownership(s')
  {
    forall i | 0 <= i < |s'.slots| ensures SlotOk(s'.main.pc, s'.threads, s'.slots[i], i) {
      assert SlotOk(s.main.pc, s.threads, s.slots[i], i);
    }
    forall t | 0 <= t < |s'.threads| ensures ThreadOk(s'.main.pc, s'.slots, s'.threads[t], t) {
      assert ThreadOk(s.main.pc, s.slots, s.threads[t], t);
    }
  }

  lemma KeysOwnership(s: State, kp: KeysPc, x: Choice, s': State)
    requires Inv(s) && s.main.pc == AtKeys(kp) && KeysStep(s, kp, x) == Some(s')
    ensures Shape(s') && Ownership(s')
  {
    QuietKeepsOwnership(s, s');
  }

  lemma TimerOwnership(c: Config, s: State, tp: TimerPc, x: Choice, s': State)
    requires Inv(s) && s.main.pc == AtTimer(tp) && TimerStep(c, s, tp, x) == Some(s')
    ensures Shape(s') && Ownership(s')
  {
    QuietKeepsOwnership(s, s');
  }

  lemma DrawOwnership(s: State, dp: DrawPc, final: bool, s': State)
    requires Inv(s) && s.main.pc == AtDraw(dp, final) && DrawStep(s, dp, final) == Some(s')
    ensures Shape(s') && Ownership(s')
  {
    QuietKeepsOwnership(s, s');
  }

  /** Making a word inactive, whoever does it, leaves the ownership facts alone. */
  lemma DeactivateOwnership(s: State, i: nat, s': State)
    requires Inv(s) && i < |s.slots| && s'.threads == s.threads
    requires s'.slots == s.slots[i := s.slots[i].(active := false)]
    requires forall j :: !Placing(s'.main.pc, j) && !Placing(s.main.pc, j)
    requires forall j :: !Reserving(s'.main.pc, j) && !Reserving(s.main.pc, j)
    requires Sweeping(s'.main.pc) == Sweeping(s.main.pc)
    ensures Ownership(s')
  {
    forall j | 0 <= j < |s'.slots| ensures SlotOk(s'.main.pc, s'.threads, s'.slots[j], j) {
      assert SlotOk(s.main.pc, s.threads, s.slots[j], j);
    }
    forall t | 0 <= t < |s'.threads| ensures ThreadOk(s'.main.pc, s'.slots, s'.threads[t], t) {
      assert ThreadOk(s.main.pc, s.slots, s.threads[t], t);
    }
  }

  /** What submitting a line does to slots and threads: it takes at most the word that is hit off the screen. */
  lemma SubmitSlots(s: State, sp: SubmitPc, s': State)
    requires Shape(s) && s.main.pc == AtSubmit(sp) && SubmitStep(s, sp) == Some(s')
    ensures s'.threads == s.threads && MainPcInRange(s'.main.pc, s'.slots)
    ensures !s'.main.pc.AtCreate? && !s'.main.pc.AtPick? && !s'.main.pc.AtSweep?
    ensures var r := TargetUpTo(s.slots, s.main.input, |s.slots|);
            s'.slots == if sp.SubmitIn? && r != -1 then s.slots[r := s.slots[r].(active := false)] else s.slots
  {
  }

  lemma SubmitOwnership(s: State, sp: SubmitPc, s': State)
    requires Inv(s) && s.main.pc == AtSubmit(sp) && SubmitStep(s, sp) == Some(s')
    ensures Shape(s') && Ownership(s')
  {
    SubmitSlots(s, sp, s');
    var r := TargetUpTo(s.slots, s.main.input, |s.slots|);
    if sp.SubmitIn? && r != -1 { DeactivateOwnership(s, r, s'); } else { QuietKeepsOwnership(s, s'); }
  }

  /** A free slot is given up by its old thread, which is past its last unlock. */
  lemma TakeSlotOwnership(c: Config, s: State, x: Choice, s': State)
    requires Inv(s) && s.main.pc == AtPick(SpawnIn) && PickStep(c, s, SpawnIn, x) == Some(s')
    ensures Shape(s') && Ownership(s')
  {
    forall i | 0 <= i < |s'.slots| ensures SlotOk(s'.main.pc, s'.threads, s'.slots[i], i) {
      assert SlotOk(s.main.pc, s.threads, s.slots[i], i);
    }
    forall t | 0 <= t < |s'.threads| ensures ThreadOk(s'.main.pc, s'.slots, s'.threads[t], t) {
      assert ThreadOk(s.main.pc, s.slots, s.threads[t], t);
      assert WordLocks(t, s.threads[t].pc, s.locks);
    }
  }

  lemma PlaceOwnership(c: Config, s: State, i: nat, pick: Bytes, x: Choice, s': State)
    requires Inv(s) && s.main.pc == AtPick(Place(i, pick)) && PickStep(c, s, Place(i, pick), x) == Some(s')
    ensures Shape(s') && Ownership(s')
  {
    forall j | 0 <= j < |s'.slots| ensures SlotOk(s'.main.pc, s'.threads, s'.slots[j], j) {
      assert SlotOk(s.main.pc, s.threads, s.slots[j], j);
    }
    forall t | 0 <= t < |s'.threads| ensures ThreadOk(s'.main.pc, s'.slots, s'.threads[t], t) {
      if t < |s.threads| { assert ThreadOk(s.main.pc, s.slots, s.threads[t], t); }
    }
  }

  lemma PickOwnership(c: Config, s: State, pp: PickPc, x: Choice, s': State)
    requires Inv(s) && s.main.pc == AtPick(pp) && PickStep(c, s, pp, x) == Some(s')
    ensures Shape(s') && Ownership(s')
  {
    match pp
    case SpawnIn => TakeSlotOwnership(c, s, x, s');
    case Place(i, pick) => PlaceOwnership(c, s, i, pick, x, s');
    case _ => QuietKeepsOwnership(s, s');
  }

  lemma CreateThreadOwnership(s: State, i: nat, x: Choice, s': State)
    requires Inv(s) && s.main.pc == AtCreate(Create(i)) && CreateStep(s, Create(i), x) == Some(s')
    ensures Shape(s') && Ownership(s')
  {
    forall j | 0 <= j < |s'.slots| ensures SlotOk(s'.main.pc, s'.threads, s'.slots[j], j) {
      assert SlotOk(s.main.pc, s.threads, s.slots[j], j);
    }
    forall t | 0 <= t < |s'.threads| ensures ThreadOk(s'.main.pc, s'.slots, s'.threads[t], t) {
      assert ThreadOk(s.main.pc, s.slots, s.threads[t], t);
    }
  }

  lemma CreateOwnership(s: State, cp: CreatePc, x: Choice, s': State)
    requires Inv(s) && s.main.pc == AtCreate(cp) && CreateStep(s, cp, x) == Some(s')
    ensures Shape(s') && Ownership(s')
  {
    if cp.Create? { CreateThreadOwnership(s, cp.i, x, s'); } else { QuietKeepsOwnership(s, s'); }
  }

  /** A slot that a joining loop clears belonged to a finished thread; any other slot stays as it is. */
  lemma JoinOwnership(s: State, i: nat, s': State)
    requires Inv(s) && i < |s.slots| && Joined(s, i).Some? && s.locks.words == MainThread
    requires s'.threads == s.threads && s'.slots == s.slots[i := Joined(s, i).value]
    requires forall j :: !Placing(s'.main.pc, j) && !Placing(s.main.pc, j) && !Reserving(s'.main.pc, j)
    requires Sweeping(s.main.pc) == Sweeping(s'.main.pc) && MainPcInRange(s'.main.pc, s'.slots)
    ensures Shape(s') && Ownership(s')
  {
    forall j | 0 <= j < |s'.slots| ensures SlotOk(s'.main.pc, s'.threads, s'.slots[j], j) {
      assert SlotOk(s.main.pc, s.threads, s.slots[j], j);
    }
    forall t | 0 <= t < |s'.threads| ensures ThreadOk(s'.main.pc, s'.slots, s'.threads[t], t) {
      assert ThreadOk(s.main.pc, s.slots, s.threads[t], t);
    }
  }

  lemma ReapOwnership(s: State, rp: ReapPc, s': State)
    requires Inv(s) && s.main.pc == AtReap(rp) && ReapStep(s, rp) == Some(s')
    ensures Shape(s') && Ownership(s')
  {
    if rp.Reap? && rp.i < |s.slots| { JoinOwnership(s, rp.i, s'); } else { QuietKeepsOwnership(s, s'); }
  }

  lemma MarkOwnership(s: State, s': State)
    requires Inv(s) && s.main.pc == AtSweep(MarkIn) && SweepStep(s, MarkIn) == Some(s')
    ensures Shape(s') && Ownership(s')
  {
    forall i | 0 <= i < |s'.slots|
      ensures SlotOk(s'.main.pc, s'.threads, s'.slots[i], i) && SlotShape(s', s'.slots[i])
    {
      assert SlotOk(s.main.pc, s.threads, s.slots[i], i);
    }
    forall t | 0 <= t < |s'.threads| ensures ThreadOk(s'.main.pc, s'.slots, s'.threads[t], t) {
      assert ThreadOk(s.main.pc, s.slots, s.threads[t], t);
    }
  }

  lemma SweepOwnership(s: State, wp: SweepPc, s': State)
    requires Inv(s) && s.main.pc == AtSweep(wp) && SweepStep(s, wp) == Some(s')
    ensures Shape(s') && Ownership(s')
  {
    if wp.Join? && wp.i < |s.slots| { JoinOwnership(s, wp.i, s'); }
    else if wp.MarkIn? { MarkOwnership(s, s'); }
    else { QuietKeepsOwnership(s, s'); }
  }

  /** What a word thread's step can do to slots and threads: only its own, never the text, the type
      or the owner; it marks its slot on entering the exit section and leaves it alone afterwards. */
  predicate WordEffect(s: State, t: nat, s': State)
    requires Shape(s) && t < |s.threads|
  {
    && s'.main == s.main && s'.signalled == s.signalled
    && |s'.threads| == |s.threads| && s'.threads == s.threads[t := s.threads[t].(pc := s'.threads[t].pc)]
    && var i := s.threads[t].slot; var pc := s.threads[t].pc; var pc' := s'.threads[t].pc;
    && |s'.slots| == |s.slots| && s'.slots == s.slots[i := s'.slots[i]]
    && s'.slots[i] == s.slots[i].(y := s'.slots[i].y, active := s'.slots[i].active, toRemove := s'.slots[i].toRemove)
    && (s'.slots[i].active ==> s.slots[i].active)
    && !Unborn(pc) && !Unborn(pc')
    && (AfterMark(pc) ==> AfterMark(pc') && s'.slots[i] == s.slots[i])
    && (!AfterMark(pc) && AfterMark(pc') ==> s'.slots[i].toRemove && !s'.slots[i].active)
    && (!AfterMark(pc') ==> s'.slots[i].toRemove == s.slots[i].toRemove)
    && (PastLastUnlock(pc) ==> PastLastUnlock(pc'))
    && (PastLastUnlock(pc') ==> PastLastUnlock(pc) || pc == AtExit(ExitOut))
    && s'.hist == s.hist.(log := s'.hist.log)
  }

  lemma WordStepEffect(c: Config, s: State, t: nat, x: Choice, s': State)
    requires Shape(s) && t < |s.threads| && WordStep(c, s, t, x) == Some(s')
    ensures WordEffect(s, t, s')
  {
    match s.threads[t].pc {
      case AtPoll(pp) => PollEffect(s, t, pp, x, s');
      case AtDrop(dp) => DropEffect(c, s, t, dp, s');
      case AtExit(ep) => ExitEffect(s, t, ep, s');
      case _ =>
    }
  }

  /** A thread on its way round the loop, or to its exit, that leaves all slots alone. */
  lemma LoopEffect(s: State, t: nat, s': State)
    requires Shape(s) && t < |s.threads| && s.threads[t].pc.AtPoll?
    requires s'.main == s.main && s'.signalled == s.signalled && s'.hist == s.hist && s'.slots == s.slots
    requires |s'.threads| == |s.threads| && s'.threads == s.threads[t := s.threads[t].(pc := s'.threads[t].pc)]
    requires s'.threads[t].pc.AtPoll? || s'.threads[t].pc == AtDrop(DropWant) || s'.threads[t].pc == AtExit(ExitWant)
    ensures WordEffect(s, t, s')
  {
  }

  lemma PollEffect(s: State, t: nat, pp: PollPc, x: Choice, s': State)
    requires Shape(s) && t < |s.threads| && s.threads[t].pc == AtPoll(pp) && PollStep(s, t, pp, x) == Some(s')
    ensures WordEffect(s, t, s')
  {
    LoopEffect(s, t, s');
  }

  /** A thread in its drop section that moves its word down or takes it off the screen. */
  lemma FallEffect(s: State, t: nat, s': State)
    requires Shape(s) && t < |s.threads| && s.threads[t].pc.AtDrop?
    requires s'.main == s.main && s'.signalled == s.signalled && s'.hist == s.hist.(log := s'.hist.log)
    requires |s'.slots| == |s.slots| && |s'.threads| == |s.threads|
    requires s'.threads == s.threads[t := s.threads[t].(pc := s'.threads[t].pc)]
    requires var i := s.threads[t].slot;
             && s'.slots == s.slots[i := s.slots[i].(y := s'.slots[i].y, active := s'.slots[i].active)]
             && (s'.slots[i].active ==> s.slots[i].active)
    requires s'.threads[t].pc.AtDrop? || s'.threads[t].pc.AtPoll?
    ensures WordEffect(s, t, s')
  {
  }

  lemma DropEffect(c: Config, s: State, t: nat, dp: DropPc, s': State)
    requires Shape(s) && t < |s.threads| && s.threads[t].pc == AtDrop(dp) && DropStep(c, s, t, dp) == Some(s')
    ensures WordEffect(s, t, s')
  {
    FallEffect(s, t, s');
  }

  lemma ExitEffect(s: State, t: nat, ep: ExitPc, s': State)
    requires Shape(s) && t < |s.threads| && s.threads[t].pc == AtExit(ep) && ExitStep(s, t, ep) == Some(s')
    ensures WordEffect(s, t, s')
  {
  }

  lemma WordEffectOwnership(s: State, t: nat, s': State)
    requires Inv(s) && t < |s.threads| && WordEffect(s, t, s')
    ensures Shape(s') && Ownership(s')
  {
    assert ThreadOk(s.main.pc, s.slots, s.threads[t], t);
    forall i | 0 <= i < |s'.slots| ensures SlotOk(s'.main.pc, s'.threads, s'.slots[i], i) {
      assert SlotOk(s.main.pc, s.threads, s.slots[i], i);
    }
    forall u | 0 <= u < |s'.threads| ensures ThreadOk(s'.main.pc, s'.slots, s'.threads[u], u) {
      assert ThreadOk(s.main.pc, s.slots, s.threads[u], u);
    }
  }

  // ---------- every step, every run ----------

  lemma MainKeepsInv(c: Config, s: State, x: Choice, s': State)
    requires Inv(s) && MainStep(c, s, x) == Some(s')
    ensures Inv(s') && Flow(s.main.pc, s'.main.pc)
  {
    MainKeepsLocks(c, s, x, s');
    match s.main.pc {
      case AtKeys(kp) => KeysOwnership(s, kp, x, s');
      case AtSubmit(sp) => SubmitOwnership(s, sp, s');
      case AtTimer(tp) => TimerOwnership(c, s, tp, x, s');
      case AtPick(pp) => PickOwnership(c, s, pp, x, s');
      case AtCreate(cp) => CreateOwnership(s, cp, x, s');
      case AtDraw(dp, final) => DrawOwnership(s, dp, final, s');
      case AtReap(rp) => ReapOwnership(s, rp, s');
      case AtSweep(wp) => SweepOwnership(s, wp, s');
    }
  }

  lemma WordKeepsInv(c: Config, s: State, t: nat, x: Choice, s': State)
    requires Inv(s) && t < |s.threads| && WordStep(c, s, t, x) == Some(s')
    ensures Inv(s')
  {
    WordKeepsLocks(c, s, t, x, s');
    WordStepEffect(c, s, t, x, s');
    WordEffectOwnership(s, t, s');
  }
}
