/** The falling-word game: one main thread, one thread per word, four mutexes.
    Every lock acquisition is a step of its own, so a step never hides a wait. */
module Game {
  import opened Bytes

  const MAX_WORDS: nat := 20
  const MAX_WORD_LEN: nat := 30
  const INPUT_BUFFER_LEN: nat := 40
  const INITIAL_LIVES := 5
  const BONUS_POINTS := 50
  const MIN_HEIGHT := 5

  // Values of curses' getch
  const ERR := -1
  const KEY_BACKSPACE := 263

  datatype WordType = Normal | Kill | Bonus

  /** What stays fixed during one game: the word list and the height of the game area. */
  datatype Config = Config(dict: seq<Bytes>, height: int)

  // ---------- state ----------

  datatype Lock = ScreenLock | WordsLock | StateLock | HashLock

  datatype Holder = Nobody | MainThread | WordThread(id: nat)

  /** Who holds each of the four mutexes. */
  datatype Locks = Locks(screen: Holder, words: Holder, state: Holder, hash: Holder)

  // Program points: `...Want` waits for a mutex, `...In` holds it.

  /** The polling part of the loop of `word_thread_func`. */
  datatype PollPc =
    | Top | SignalWant | SignalIn
    | PollWant | PollIn | OverWant(active: bool) | OverIn(active: bool)
    | Choose | IntervalWant | IntervalIn | Tick

  /** Its drop section. */
  datatype DropPc = DropWant | DropIn | FallHashWant | FallHashIn | FallStateWant | FallStateIn | DropOut

  /** Its exit section, the return, and the state after it. */
  datatype ExitPc = ExitWant | ExitIn | ExitHashWant | ExitHashIn | ExitOut | Returning | Done

  datatype WordPc = NotStarted | NeverCreated | AtPoll(pp: PollPc) | AtDrop(dp: DropPc) | AtExit(ep: ExitPc)

  /** The top of the main loop and the start of `process_game_input`. */
  datatype KeysPc =
    | LoopTop | QuitWant | QuitIn | FlagWant | FlagIn | GetKey | InputWant(ch: int) | InputIn(ch: int)

  /** The submission of a line. */
  datatype SubmitPc =
    | SubmitWant | SubmitIn
    | TypedHashWant(i: nat, wtype: WordType) | TypedHashIn(i: nat, wtype: WordType) | TypedOut(i: nat, wtype: WordType)
    | CreditWant(i: nat, wtype: WordType) | CreditIn(i: nat, wtype: WordType)

  /** The spawn decision of the main loop. */
  datatype TimerPc = CanSpawnWant | CanSpawnIn | SpawnTimer(can: bool)

  /** The choice of slot and word in `spawn_word`. */
  datatype PickPc =
    | SpawnWant | SpawnIn | Pick(i: nat, tries: nat)
    | LookWant(i: nat, tries: nat, pick: Bytes) | LookIn(i: nat, tries: nat, pick: Bytes)
    | Place(i: nat, pick: Bytes) | NoSlot

  /** The rest of `spawn_word`. */
  datatype CreatePc = AddWant(i: nat) | AddIn(i: nat) | Create(i: nat) | UndoWant(i: nat) | UndoIn(i: nat) | SpawnOut

  /** `draw_game_screen`. */
  datatype DrawPc =
    | ScreenWant | DrawStateWant | DrawStateIn | DrawLevelWant | DrawLevelIn
    | DrawWordsWant | DrawWordsIn | ScreenOut

  /** `cleanup_finished_threads` and the end of the loop. */
  datatype ReapPc = ReapWant | Reap(i: nat) | LoopEnd

  /** The end of the game: last key, then `safe_game_cleanup`. */
  datatype SweepPc = FinalKey | MarkWant | MarkIn | JoinWant | Join(i: nat) | Ended

  datatype MainPc =
    | AtKeys(kp: KeysPc) | AtSubmit(sp: SubmitPc) | AtTimer(tp: TimerPc) | AtPick(pp: PickPc) | AtCreate(cp: CreatePc)
    | AtDraw(dp: DrawPc, final: bool) | AtReap(rp: ReapPc) | AtSweep(wp: SweepPc)

  /** `quit` is the loop's own copy of game_is_over. */
  datatype Main = Main(pc: MainPc, quit: bool, input: Bytes)

  datatype Thread = Thread(slot: nat, pc: WordPc)

  /** One entry of `words[]`. `inst` is history: the word (numbered in spawn order) last placed here. */
  datatype Slot = Slot(text: Bytes, y: int, active: bool, toRemove: bool, wtype: WordType,
                       tid: Option<nat>, inst: Option<nat>)

  /** The shared game state: the table of active words, score, lives and game_is_over. */
  datatype Shared = Shared(table: set<Bytes>, score: int, lives: int, over: bool)

  /** What happened to the words, in order. `Landed` is a fall's turn under the state lock. */
  datatype Event =
    | Typed(id: nat, wtype: WordType, word: Bytes)
    | Fell(id: nat)
    | Landed(id: nat, wtype: WordType, over: bool)
    | Abandoned(id: nat)
    | Failed(id: nat)

  /** History, read by no step: the events, and how many effects came after game_is_over was set. */
  datatype History = History(log: seq<Event>, lateCredits: nat, lateSpawns: nat, lateLoops: nat)

  datatype State = State(main: Main, threads: seq<Thread>, slots: seq<Slot>, game: Shared, signalled: bool,
                         locks: Locks, hist: History)

  const EMPTY_SLOT := Slot([], 0, false, false, Normal, None, None)

  function InitialState(): State {
    State(Main(AtKeys(LoopTop), false, []), [], seq(MAX_WORDS, _ => EMPTY_SLOT),
          Shared({}, 0, INITIAL_LIVES, false), false,
          Locks(Nobody, Nobody, Nobody, Nobody), History([], 0, 0, 0))
  }

  /** A game area under five rows never reaches the main loop. */
  predicate ValidConfig(c: Config) {
    c.height >= MIN_HEIGHT
  }

  // ---------- well-formedness every step relies on ----------

  predicate MainPcInRange(pc: MainPc, slots: seq<Slot>) {
    match pc
    case AtSubmit(sp) => sp.SubmitWant? || sp.SubmitIn? || sp.i < |slots|
    case AtPick(pp) => !(pp.Pick? || pp.LookWant? || pp.LookIn? || pp.Place?) || pp.i < |slots|
    case AtCreate(cp) =>
      !cp.SpawnOut? ==> cp.i < |slots| && (cp.AddWant? || cp.AddIn? || cp.Create? ==> slots[cp.i].inst.Some?)
    case AtReap(rp) => rp.Reap? ==> rp.i <= |slots|
    case AtSweep(wp) => wp.Join? ==> wp.i <= |slots|
    case _ => true
  }

  ghost predicate Shape(s: State) {
    && |s.slots| == MAX_WORDS
    && (forall t :: 0 <= t < |s.threads| ==> s.threads[t].slot < MAX_WORDS)
    && (forall i :: 0 <= i < MAX_WORDS ==> SlotShape(s, s.slots[i]))
    && MainPcInRange(s.main.pc, s.slots)
  }

  predicate SlotShape(s: State, slot: Slot) {
    && (slot.tid.Some? ==> slot.tid.value < |s.threads|)
    && (slot.inst.Some? ==> slot.inst.value < |s.threads|)
    && (slot.active ==> slot.inst.Some?)
  }

  // ---------- which word a submitted line hits, which slot a spawn takes ----------

  predicate Matches(slots: seq<Slot>, input: Bytes, i: int)
    requires 0 <= i < |slots|
  {
    slots[i].active && slots[i].text == input
  }

  /** Slot a strictly outranks slot b: kill words before bonus words before normal ones, then the lower one. */
  predicate Outranks(a: Slot, b: Slot) {
    || (a.wtype == Kill && b.wtype != Kill)
    || (a.wtype == Bonus && b.wtype == Normal)
    || (a.wtype == b.wtype && a.y > b.y)
  }

  /** r is the slot hit among the first n: the first of the matching slots that none outranks; -1 for none. */
  ghost predicate IsTarget(slots: seq<Slot>, input: Bytes, n: int, r: int)
    requires 0 <= n <= |slots|
  {
    if r == -1 then forall j :: 0 <= j < n ==> !Matches(slots, input, j)
    else
      && 0 <= r < n && Matches(slots, input, r)
      && (forall j :: 0 <= j < n && Matches(slots, input, j) ==> !Outranks(slots[j], slots[r]))
      && (forall j :: 0 <= j < r && Matches(slots, input, j) ==> Outranks(slots[r], slots[j]))
  }

  function TargetUpTo(slots: seq<Slot>, input: Bytes, n: nat): (r: int)
    requires n <= |slots|
    ensures IsTarget(slots, input, n, r)
  {
    if n == 0 then -1
    else
      var r := TargetUpTo(slots, input, n - 1);
      if Matches(slots, input, n - 1) && (r == -1 || Outranks(slots[n - 1], slots[r])) then n - 1 else r
  }

  predicate IsFree(slot: Slot) {
    slot.tid.None? || slot.toRemove
  }

  /** The first slot a new word may take, or |slots|. */
  function FreeSlotFrom(slots: seq<Slot>, i: nat): (r: nat)
    requires i <= |slots|
    ensures i <= r <= |slots| && (r < |slots| ==> slots[r].tid == None || slots[r].toRemove)
    ensures forall j :: i <= j < r ==> slots[j].tid != None && !slots[j].toRemove
    decreases |slots| - i
  {
    if i == |slots| || IsFree(slots[i]) then i else FreeSlotFrom(slots, i + 1)
  }

  function Points(wtype: WordType, text: Bytes): int {
    match wtype
    case Kill => 0
    case Bonus => BONUS_POINTS + |text|
    case Normal => |text|
  }

  // ---------- steps ----------

  /** Everything a step does not decide by itself: keys, random picks, timers, allocation and thread creation. */
  datatype Choice = Choice(ch: int, spawn: bool, pick: nat, wtype: WordType, room: bool, created: bool, drop: bool)

  function Goto(s: State, pc: MainPc): State {
    s.(main := s.main.(pc := pc))
  }

  function Logged(h: History, e: Event): History {
    h.(log := h.log + [e])
  }

  function Removed(g: Shared, text: Bytes): Shared {
    g.(table := g.table - {text})
  }

  function LockState(s: State, pc: MainPc): Option<State> {
    if s.locks.state == Nobody then Some(Goto(s, pc).(locks := s.locks.(state := MainThread))) else None
  }

  function LockWords(s: State, pc: MainPc): Option<State> {
    if s.locks.words == Nobody then Some(Goto(s, pc).(locks := s.locks.(words := MainThread))) else None
  }

  function LockHash(s: State, pc: MainPc): Option<State> {
    if s.locks.hash == Nobody then Some(Goto(s, pc).(locks := s.locks.(hash := MainThread))) else None
  }

  function FreeState(s: State, pc: MainPc): State {
    Goto(s, pc).(locks := s.locks.(state := Nobody))
  }

  function FreeWords(s: State, pc: MainPc): State {
    Goto(s, pc).(locks := s.locks.(words := Nobody))
  }

  function FreeHash(s: State, pc: MainPc): State {
    Goto(s, pc).(locks := s.locks.(hash := Nobody))
  }

  /** The effect of one key once the line is known to be accepted; submitting goes on to SubmitWant. */
  function Edited(input: Bytes, ch: int): Bytes {
    if ch == KEY_BACKSPACE || ch == 127 || ch == 8 then
      if |input| > 0 then input[..|input| - 1] else input
    else if 32 <= ch <= 126 && |input| < INPUT_BUFFER_LEN - 1 then input + [ch as char]
    else input
  }

  function KeysStep(s: State, kp: KeysPc, x: Choice): Option<State>
    requires s.main.pc == AtKeys(kp)
  {
    match kp
    case LoopTop => Some(Goto(s, AtKeys(if s.signalled then QuitWant else FlagWant)))
    case QuitWant => LockState(s, AtKeys(QuitIn))
    case QuitIn =>
      Some(FreeState(s, AtKeys(FlagWant)).(main := s.main.(pc := AtKeys(FlagWant), quit := true),
                                           game := s.game.(over := true)))
    case FlagWant => LockState(s, AtKeys(FlagIn))
    case FlagIn => Some(FreeState(s, AtKeys(GetKey)).(main := s.main.(pc := AtKeys(GetKey), quit := s.game.over)))
    case GetKey => Some(Goto(s, if x.ch == ERR then AtTimer(CanSpawnWant) else AtKeys(InputWant(x.ch))))
    case InputWant(ch) => LockState(s, AtKeys(InputIn(ch)))
    case InputIn(ch) =>
      if s.game.over then Some(FreeState(s, AtTimer(CanSpawnWant)))
      else if ch == 10 || ch == 32 then
        Some(FreeState(s, if |s.main.input| > 0 then AtSubmit(SubmitWant) else AtTimer(CanSpawnWant)))
      else
        Some(FreeState(s, AtTimer(CanSpawnWant))
             .(main := s.main.(pc := AtTimer(CanSpawnWant), input := Edited(s.main.input, ch))))
  }

  function SubmitStep(s: State, sp: SubmitPc): Option<State>
    requires Shape(s) && s.main.pc == AtSubmit(sp)
  {
    match sp
    case SubmitWant => LockWords(s, AtSubmit(SubmitIn))
    case SubmitIn =>
      var r := TargetUpTo(s.slots, s.main.input, |s.slots|);
      if r == -1 then
        Some(FreeWords(s, AtTimer(CanSpawnWant)).(main := s.main.(pc := AtTimer(CanSpawnWant), input := [])))
      else
        var slot := s.slots[r];
        Some(Goto(s, AtSubmit(TypedHashWant(r, slot.wtype)))
             .(slots := s.slots[r := slot.(active := false)],
               hist := Logged(s.hist, Typed(slot.inst.value, slot.wtype, s.main.input))))
    case TypedHashWant(i, wtype) => LockHash(s, AtSubmit(TypedHashIn(i, wtype)))
    case TypedHashIn(i, wtype) =>
      Some(FreeHash(s, AtSubmit(TypedOut(i, wtype))).(game := Removed(s.game, s.slots[i].text)))
    case TypedOut(i, wtype) => Some(FreeWords(s, AtSubmit(CreditWant(i, wtype))))
    case CreditWant(i, wtype) => LockState(s, AtSubmit(CreditIn(i, wtype)))
    case CreditIn(i, wtype) =>
      var s1 := FreeState(s, AtTimer(CanSpawnWant)).(main := s.main.(pc := AtTimer(CanSpawnWant), input := []));
      if wtype == Kill then Some(s1.(game := s.game.(over := true)))
      else Some(s1.(game := s.game.(score := s.game.score + Points(wtype, s.slots[i].text)),
                    hist := if s.game.over then s.hist.(lateCredits := s.hist.lateCredits + 1) else s.hist))
  }

  function TimerStep(c: Config, s: State, tp: TimerPc, x: Choice): Option<State>
    requires s.main.pc == AtTimer(tp)
  {
    match tp
    case CanSpawnWant => LockState(s, AtTimer(CanSpawnIn))
    case CanSpawnIn => Some(FreeState(s, AtTimer(SpawnTimer(!s.game.over))))
    case SpawnTimer(can) =>
      Some(Goto(s, if can && x.spawn && |c.dict| > 0 then AtPick(SpawnWant) else AtDraw(ScreenWant, false)))
  }

  function PickStep(c: Config, s: State, pp: PickPc, x: Choice): Option<State>
    requires Shape(s) && s.main.pc == AtPick(pp)
  {
    match pp
    case SpawnWant => LockWords(s, AtPick(SpawnIn))
    case SpawnIn =>
      var i := FreeSlotFrom(s.slots, 0);
      if i == |s.slots| then Some(Goto(s, AtPick(NoSlot)))
      else Some(Goto(s, AtPick(Pick(i, 0))).(slots := s.slots[i := s.slots[i].(tid := None)]))
    case Pick(i, tries) =>
      if x.pick >= |c.dict| then None
      else if tries + 1 > |c.dict| then Some(Goto(s, AtPick(Place(i, c.dict[x.pick]))))
      else Some(Goto(s, AtPick(LookWant(i, tries + 1, c.dict[x.pick]))))
    case LookWant(i, tries, pick) => LockHash(s, AtPick(LookIn(i, tries, pick)))
    case LookIn(i, tries, pick) =>
      Some(FreeHash(s, AtPick(if pick in s.game.table then Pick(i, tries) else Place(i, pick))))
    case Place(i, pick) =>
      var slot := Slot(Truncated(pick, MAX_WORD_LEN - 1), 0, true, false, x.wtype, None, Some(|s.threads|));
      Some(Goto(s, AtCreate(AddWant(i)))
           .(slots := s.slots[i := slot], threads := s.threads + [Thread(i, NotStarted)],
             hist := if s.game.over then s.hist.(lateSpawns := s.hist.lateSpawns + 1) else s.hist))
    case NoSlot => Some(FreeWords(s, AtDraw(ScreenWant, false)))
  }

  function CreateStep(s: State, cp: CreatePc, x: Choice): Option<State>
    requires Shape(s) && s.main.pc == AtCreate(cp)
  {
    match cp
    case AddWant(i) => LockHash(s, AtCreate(AddIn(i)))
    case AddIn(i) =>
      Some(FreeHash(s, AtCreate(Create(i)))
           .(game := if x.room then s.game.(table := s.game.table + {s.slots[i].text}) else s.game))
    case Create(i) =>
      var t := s.slots[i].inst.value;
      if x.created then
        Some(Goto(s, AtCreate(SpawnOut))
             .(slots := s.slots[i := s.slots[i].(tid := Some(t))],
               threads := s.threads[t := s.threads[t].(pc := AtPoll(Top))]))
      else
        Some(Goto(s, AtCreate(UndoWant(i)))
             .(slots := s.slots[i := s.slots[i].(active := false)],
               threads := s.threads[t := s.threads[t].(pc := NeverCreated)],
               hist := Logged(s.hist, Failed(t))))
    case UndoWant(i) => LockHash(s, AtCreate(UndoIn(i)))
    case UndoIn(i) => Some(FreeHash(s, AtCreate(SpawnOut)).(game := Removed(s.game, s.slots[i].text)))
    case SpawnOut => Some(FreeWords(s, AtDraw(ScreenWant, false)))
  }

  function DrawStep(s: State, dp: DrawPc, final: bool): Option<State>
    requires s.main.pc == AtDraw(dp, final)
  {
    match dp
    case ScreenWant =>
      if s.locks.screen == Nobody then
        Some(Goto(s, AtDraw(DrawStateWant, final)).(locks := s.locks.(screen := MainThread)))
      else None
    case DrawStateWant => LockState(s, AtDraw(DrawStateIn, final))
    case DrawStateIn => Some(FreeState(s, AtDraw(DrawLevelWant, final)))
    case DrawLevelWant => LockState(s, AtDraw(DrawLevelIn, final))
    case DrawLevelIn => Some(FreeState(s, AtDraw(DrawWordsWant, final)))
    case DrawWordsWant => LockWords(s, AtDraw(DrawWordsIn, final))
    case DrawWordsIn => Some(FreeWords(s, AtDraw(ScreenOut, final)))
    case ScreenOut =>
      Some(Goto(s, if final then AtSweep(FinalKey) else AtReap(ReapWant)).(locks := s.locks.(screen := Nobody)))
  }

  /** A joined slot: thread_id 0, inactive, empty text. */
  function Cleared(slot: Slot): Slot {
    slot.(text := [], active := false, toRemove := false, tid := None, inst := None)
  }

  /** The slot a joining loop works on: None while the thread to be joined is still running. */
  function Joined(s: State, i: nat): Option<Slot>
    requires Shape(s) && i < |s.slots|
  {
    var slot := s.slots[i];
    if slot.tid.Some? && slot.toRemove then
      if s.threads[slot.tid.value].pc == AtExit(Done) then Some(Cleared(slot)) else None
    else Some(slot)
  }

  function ReapStep(s: State, rp: ReapPc): Option<State>
    requires Shape(s) && s.main.pc == AtReap(rp)
  {
    match rp
    case ReapWant => LockWords(s, AtReap(Reap(0)))
    case Reap(i) =>
      if i == |s.slots| then Some(FreeWords(s, AtReap(LoopEnd)))
      else if Joined(s, i).None? then None
      else Some(Goto(s, AtReap(Reap(i + 1))).(slots := s.slots[i := Joined(s, i).value]))
    case LoopEnd =>
      if s.main.quit then Some(Goto(s, AtDraw(ScreenWant, true)))
      else Some(Goto(s, AtKeys(LoopTop))
                .(hist := if s.game.over then s.hist.(lateLoops := s.hist.lateLoops + 1) else s.hist))
  }

  function Marked(slot: Slot): Slot {
    if slot.tid.Some? then slot.(toRemove := true) else slot
  }

  function SweepStep(s: State, wp: SweepPc): Option<State>
    requires Shape(s) && s.main.pc == AtSweep(wp)
  {
    match wp
    case FinalKey => Some(Goto(s, AtSweep(MarkWant)))
    case MarkWant => LockWords(s, AtSweep(MarkIn))
    case MarkIn =>
      Some(FreeWords(s, AtSweep(JoinWant))
           .(slots := seq(|s.slots|, i requires 0 <= i < |s.slots| => Marked(s.slots[i]))))
    case JoinWant => LockWords(s, AtSweep(Join(0)))
    case Join(i) =>
      if i == |s.slots| then Some(FreeWords(s, AtSweep(Ended)))
      else if Joined(s, i).None? then None
      else Some(Goto(s, AtSweep(Join(i + 1))).(slots := s.slots[i := Joined(s, i).value]))
    case Ended => None
  }

  function MainStep(c: Config, s: State, x: Choice): Option<State>
    requires Shape(s)
  {
    match s.main.pc
    case AtKeys(kp) => KeysStep(s, kp, x)
    case AtSubmit(sp) => SubmitStep(s, sp)
    case AtTimer(tp) => TimerStep(c, s, tp, x)
    case AtPick(pp) => PickStep(c, s, pp, x)
    case AtCreate(cp) => CreateStep(s, cp, x)
    case AtDraw(dp, final) => DrawStep(s, dp, final)
    case AtReap(rp) => ReapStep(s, rp)
    case AtSweep(wp) => SweepStep(s, wp)
  }

  function Move(s: State, t: nat, pc: WordPc): State
    requires t < |s.threads|
  {
    s.(threads := s.threads[t := s.threads[t].(pc := pc)])
  }

  function WordLockState(s: State, t: nat, pc: WordPc): Option<State>
    requires t < |s.threads|
  {
    if s.locks.state == Nobody then Some(Move(s, t, pc).(locks := s.locks.(state := WordThread(t)))) else None
  }

  function WordLockWords(s: State, t: nat, pc: WordPc): Option<State>
    requires t < |s.threads|
  {
    if s.locks.words == Nobody then Some(Move(s, t, pc).(locks := s.locks.(words := WordThread(t)))) else None
  }

  function WordLockHash(s: State, t: nat, pc: WordPc): Option<State>
    requires t < |s.threads|
  {
    if s.locks.hash == Nobody then Some(Move(s, t, pc).(locks := s.locks.(hash := WordThread(t)))) else None
  }

  function WordFreeState(s: State, t: nat, pc: WordPc): State
    requires t < |s.threads|
  {
    Move(s, t, pc).(locks := s.locks.(state := Nobody))
  }

  function WordFreeWords(s: State, t: nat, pc: WordPc): State
    requires t < |s.threads|
  {
    Move(s, t, pc).(locks := s.locks.(words := Nobody))
  }

  function WordFreeHash(s: State, t: nat, pc: WordPc): State
    requires t < |s.threads|
  {
    Move(s, t, pc).(locks := s.locks.(hash := Nobody))
  }

  function PollStep(s: State, t: nat, pp: PollPc, x: Choice): Option<State>
    requires Shape(s) && t < |s.threads| && s.threads[t].pc == AtPoll(pp)
  {
    var slot := s.slots[s.threads[t].slot];
    match pp
    case Top => Some(Move(s, t, AtPoll(if s.signalled then SignalWant else PollWant)))
    case SignalWant => WordLockState(s, t, AtPoll(SignalIn))
    case SignalIn => Some(WordFreeState(s, t, AtPoll(PollWant)).(game := s.game.(over := true)))
    case PollWant => WordLockWords(s, t, AtPoll(PollIn))
    case PollIn => Some(WordFreeWords(s, t, AtPoll(OverWant(slot.active))))
    case OverWant(active) => WordLockState(s, t, AtPoll(OverIn(active)))
    case OverIn(active) =>
      Some(WordFreeState(s, t, if !active || s.game.over then AtExit(ExitWant) else AtPoll(Choose)))
    case Choose => Some(Move(s, t, AtPoll(if slot.wtype == Normal then IntervalWant else Tick)))
    case IntervalWant => WordLockState(s, t, AtPoll(IntervalIn))
    case IntervalIn => Some(WordFreeState(s, t, AtPoll(Tick)))
    case Tick => Some(Move(s, t, if x.drop then AtDrop(DropWant) else AtPoll(Top)))
  }

  /** `if (!game_is_over) { lose a life unless it is a kill word; no life left ends the game }`. */
  function Land(g: Shared, wtype: WordType): Shared {
    if g.over then g
    else
      var lives := if wtype == Kill then g.lives else g.lives - 1;
      g.(lives := lives, over := lives <= 0)
  }

  function DropStep(c: Config, s: State, t: nat, dp: DropPc): Option<State>
    requires Shape(s) && t < |s.threads| && s.threads[t].pc == AtDrop(dp)
  {
    var i := s.threads[t].slot;
    var slot := s.slots[i];
    match dp
    case DropWant => WordLockWords(s, t, AtDrop(DropIn))
    case DropIn =>
      if !slot.active then Some(Move(s, t, AtDrop(DropOut)))
      else if slot.y + 1 >= c.height then
        Some(Move(s, t, AtDrop(FallHashWant))
             .(slots := s.slots[i := slot.(y := slot.y + 1, active := false)], hist := Logged(s.hist, Fell(t))))
      else Some(Move(s, t, AtDrop(DropOut)).(slots := s.slots[i := slot.(y := slot.y + 1)]))
    case FallHashWant => WordLockHash(s, t, AtDrop(FallHashIn))
    case FallHashIn => Some(WordFreeHash(s, t, AtDrop(FallStateWant)).(game := Removed(s.game, slot.text)))
    case FallStateWant => WordLockState(s, t, AtDrop(FallStateIn))
    case FallStateIn =>
      Some(WordFreeState(s, t, AtDrop(DropOut))
           .(game := Land(s.game, slot.wtype), hist := Logged(s.hist, Landed(t, slot.wtype, s.game.over))))
    case DropOut => Some(WordFreeWords(s, t, AtPoll(Top)))
  }

  function ExitStep(s: State, t: nat, ep: ExitPc): Option<State>
    requires Shape(s) && t < |s.threads| && s.threads[t].pc == AtExit(ep)
  {
    var i := s.threads[t].slot;
    var slot := s.slots[i];
    match ep
    case ExitWant => WordLockWords(s, t, AtExit(ExitIn))
    case ExitIn =>
      Some(Move(s, t, AtExit(ExitHashWant))
           .(slots := s.slots[i := slot.(active := false, toRemove := true)],
             hist := if slot.active then Logged(s.hist, Abandoned(t)) else s.hist))
    case ExitHashWant => WordLockHash(s, t, AtExit(ExitHashIn))
    case ExitHashIn => Some(WordFreeHash(s, t, AtExit(ExitOut)).(game := Removed(s.game, slot.text)))
    case ExitOut => Some(WordFreeWords(s, t, AtExit(Returning)))
    case Returning => Some(Move(s, t, AtExit(Done)))
    case Done => None
  }

  function WordStep(c: Config, s: State, t: nat, x: Choice): Option<State>
    requires Shape(s) && t < |s.threads|
  {
    match s.threads[t].pc
    case NotStarted => None
    case NeverCreated => None
    case AtPoll(pp) => PollStep(s, t, pp, x)
    case AtDrop(dp) => DropStep(c, s, t, dp)
    case AtExit(ep) => ExitStep(s, t, ep)
  }

  ghost predicate MainNext(c: Config, s: State, s': State)
    requires Shape(s)
  {
    exists x :: MainStep(c, s, x) == Some(s')
  }

  ghost predicate WordNext(c: Config, s: State, t: nat, s': State)
    requires Shape(s) && t < |s.threads|
  {
    exists x :: WordStep(c, s, t, x) == Some(s')
  }

  /** One step of the whole client: main, any word thread, or the arrival of a signal. */
  ghost predicate Next(c: Config, s: State, s': State)
    requires Shape(s)
  {
    || MainNext(c, s, s')
    || (exists t: nat :: t < |s.threads| && WordNext(c, s, t, s'))
    || s' == s.(signalled := true)
  }

  ghost predicate StepAt(c: Config, tr: seq<State>, k: int)
    requires 0 < k < |tr| && Shape(tr[k - 1])
  {
    Next(c, tr[k - 1], tr[k])
  }

  /** A path: consecutive states joined by steps. */
  ghost predicate Path(c: Config, tr: seq<State>) {
    && |tr| > 0
    && (forall k :: 0 <= k < |tr| ==> Shape(tr[k]))
    && (forall k :: 0 < k < |tr| ==> StepAt(c, tr, k))
  }
}
