/** The table of active words against the words on the screen. */
module GameIndex {
  import opened Bytes
  import opened Game
  import opened GameLocks
  import opened GameProgress

  /** Thread points between taking a word off the screen and taking it out of the table. */
  predicate RemovalPending(pc: WordPc) {
    || (pc.AtDrop? && (pc.dp.FallHashWant? || pc.dp.FallHashIn?))
    || (pc.AtExit? && (pc.ep.ExitHashWant? || pc.ep.ExitHashIn?))
  }

  /** Main is about to take the word of slot i out of the table. */
  predicate MainRemoves(pc: MainPc, i: int) {
    || (pc.AtSubmit? && (pc.sp.TypedHashWant? || pc.sp.TypedHashIn?) && pc.sp.i == i)
    || (pc.AtCreate? && (pc.cp.UndoWant? || pc.cp.UndoIn?) && pc.cp.i == i)
  }

  predicate Removing(pc: MainPc, threads: seq<Thread>, slot: Slot, i: int) {
    MainRemoves(pc, i) || (slot.tid.Some? && slot.tid.value < |threads| && RemovalPending(threads[slot.tid.value].pc))
  }

  /** Slot i accounts for its text being in the table. */
  predicate Holding(pc: MainPc, threads: seq<Thread>, slot: Slot, i: int) {
    slot.active || Removing(pc, threads, slot, i)
  }

  ghost predicate Covered(s: State, w: Bytes) {
    exists i :: 0 <= i < |s.slots| && s.slots[i].text == w && Holding(s.main.pc, s.threads, s.slots[i], i)
  }

  /** Every text in the table is that of a word on the screen, or of one just being removed. */
  ghost predicate Index(s: State) {
    forall w :: w in s.game.table ==> Covered(s, w)
  }

  /** Slot i keeps accounting for its text, unless the text left the table. */
  predicate KeepsHolding(s: State, s': State, i: int)
    requires 0 <= i < |s.slots| == |s'.slots|
  {
    Holding(s.main.pc, s.threads, s.slots[i], i) && s.slots[i].text in s'.game.table ==>
      Holding(s'.main.pc, s'.threads, s'.slots[i], i) && s'.slots[i].text == s.slots[i].text
  }

  lemma IndexKept(s: State, s': State)
    requires Index(s) && |s'.slots| == |s.slots| && s'.game.table <= s.game.table
    requires forall i :: 0 <= i < |s.slots| ==> KeepsHolding(s, s', i)
    ensures Index(s')
  {
    forall w | w in s'.game.table ensures Covered(s', w) {
      assert Covered(s, w);
      var i :| 0 <= i < |s.slots| && s.slots[i].text == w && Holding(s.main.pc, s.threads, s.slots[i], i);
      assert KeepsHolding(s, s', i);
    }
  }

  lemma SubmitIndex(s: State, sp: SubmitPc, s': State)
    requires Inv(s) && Index(s) && s.main.pc == AtSubmit(sp) && SubmitStep(s, sp) == Some(s')
    ensures Index(s')
  {
    IndexKept(s, s');
  }

  lemma PickIndex(c: Config, s: State, pp: PickPc, x: Choice, s': State)
    requires Inv(s) && Index(s) && s.main.pc == AtPick(pp) && PickStep(c, s, pp, x) == Some(s')
    ensures Index(s')
  {
    if pp.Place? { assert SlotOk(s.main.pc, s.threads, s.slots[pp.i], pp.i); }
    if pp.SpawnIn? {
      var i := FreeSlotFrom(s.slots, 0);
      if i < |s.slots| { FreeSlotNotHolding(s, i); }
    }
    IndexKept(s, s');
  }

  /** With words_mutex in main's hands no word thread is in a removal. */
  lemma NoThreadRemoves(s: State, t: nat)
    requires Inv(s) && s.locks.words == MainThread && t < |s.threads|
    ensures !RemovalPending(s.threads[t].pc)
  {
    assert WordLocks(t, s.threads[t].pc, s.locks);
  }

  lemma FreeSlotNotHolding(s: State, i: nat)
    requires Inv(s) && s.main.pc == AtPick(SpawnIn) && i < |s.slots| && IsFree(s.slots[i])
    ensures !Holding(s.main.pc, s.threads, s.slots[i], i)
  {
    assert SlotOk(s.main.pc, s.threads, s.slots[i], i);
    if s.slots[i].tid.Some? { NoThreadRemoves(s, s.slots[i].tid.value); }
  }

  lemma AddIndex(s: State, i: nat, x: Choice, s': State)
    requires Inv(s) && Index(s) && s.main.pc == AtCreate(AddIn(i)) && CreateStep(s, AddIn(i), x) == Some(s')
    ensures Index(s')
  {
    assert SlotOk(s.main.pc, s.threads, s.slots[i], i);
    forall w | w in s'.game.table ensures Covered(s', w) {
      if w in s.game.table {
        assert Covered(s, w);
        var j :| 0 <= j < |s.slots| && s.slots[j].text == w && Holding(s.main.pc, s.threads, s.slots[j], j);
        assert Holding(s'.main.pc, s'.threads, s'.slots[j], j);
      } else {
        assert Holding(s'.main.pc, s'.threads, s'.slots[i], i);
      }
    }
  }

  lemma CreateIndex(s: State, cp: CreatePc, x: Choice, s': State)
    requires Inv(s) && Index(s) && s.main.pc == AtCreate(cp) && CreateStep(s, cp, x) == Some(s')
    ensures Index(s')
  {
    if cp.AddIn? {
      AddIndex(s, cp.i, x, s');
    } else {
      forall i | 0 <= i < |s.slots| ensures KeepsHolding(s, s', i) {
        assert SlotOk(s.main.pc, s.threads, s.slots[i], i);
      }
      IndexKept(s, s');
    }
  }

  lemma JoinIndex(s: State, i: nat, s': State)
    requires Inv(s) && Index(s) && i < |s.slots| && Joined(s, i).Some? && s.locks.words == MainThread
    requires s'.threads == s.threads && s'.slots == s.slots[i := Joined(s, i).value] && s'.game == s.game
    requires s.main.pc.AtReap? || s.main.pc.AtSweep?
    ensures Index(s')
  {
    assert SlotOk(s.main.pc, s.threads, s.slots[i], i);
    IndexKept(s, s');
  }

  lemma ReapIndex(s: State, rp: ReapPc, s': State)
    requires Inv(s) && Index(s) && s.main.pc == AtReap(rp) && ReapStep(s, rp) == Some(s')
    ensures Index(s')
  {
    if rp.Reap? && rp.i < |s.slots| { JoinIndex(s, rp.i, s'); } else { IndexKept(s, s'); }
  }

  lemma SweepIndex(s: State, wp: SweepPc, s': State)
    requires Inv(s) && Index(s) && s.main.pc == AtSweep(wp) && SweepStep(s, wp) == Some(s')
    ensures Index(s')
  {
    if wp.Join? && wp.i < |s.slots| { JoinIndex(s, wp.i, s'); } else { IndexKept(s, s'); }
  }

  /** What a word thread's step does to the table and to its own standing as a holder. */
  predicate TableEffect(s: State, t: nat, s': State)
    requires Shape(s) && t < |s.threads|
  {
    && WordEffect(s, t, s')
    && var i := s.threads[t].slot; var pc := s.threads[t].pc; var pc' := s'.threads[t].pc;
    && (s'.game.table == s.game.table || (RemovalPending(pc) && s'.game.table == s.game.table - {s.slots[i].text}))
    && (s.slots[i].active && !s'.slots[i].active ==> RemovalPending(pc'))
    && (RemovalPending(pc) && !RemovalPending(pc') ==> s.slots[i].text !in s'.game.table)
    && (RemovalPending(pc') && !RemovalPending(pc) ==> !s'.slots[i].active)
    && (RemovalDone(pc) ==> RemovalDone(pc'))
  }

  lemma PollTable(s: State, t: nat, pp: PollPc, x: Choice, s': State)
    requires Shape(s) && t < |s.threads| && s.threads[t].pc == AtPoll(pp) && PollStep(s, t, pp, x) == Some(s')
    ensures TableEffect(s, t, s')
  {
    PollEffect(s, t, pp, x, s');
  }

  lemma DropTable(c: Config, s: State, t: nat, dp: DropPc, s': State)
    requires Shape(s) && t < |s.threads| && s.threads[t].pc == AtDrop(dp) && DropStep(c, s, t, dp) == Some(s')
    ensures TableEffect(s, t, s')
  {
    DropEffect(c, s, t, dp, s');
  }

  lemma ExitTable(s: State, t: nat, ep: ExitPc, s': State)
    requires Shape(s) && t < |s.threads| && s.threads[t].pc == AtExit(ep) && ExitStep(s, t, ep) == Some(s')
    ensures TableEffect(s, t, s')
  {
    ExitEffect(s, t, ep, s');
  }

  lemma WordTable(c: Config, s: State, t: nat, x: Choice, s': State)
    requires Shape(s) && t < |s.threads| && WordStep(c, s, t, x) == Some(s')
    ensures TableEffect(s, t, s')
  {
    match s.threads[t].pc
    case AtPoll(pp) => PollTable(s, t, pp, x, s');
    case AtDrop(dp) => DropTable(c, s, t, dp, s');
    case AtExit(ep) => ExitTable(s, t, ep, s');
    case _ =>
  }

  lemma WordIndex(s: State, t: nat, s': State)
    requires Inv(s) && Index(s) && t < |s.threads| && TableEffect(s, t, s')
    ensures Index(s')
  {
    assert ThreadOk(s.main.pc, s.slots, s.threads[t], t);
    forall i | 0 <= i < |s.slots| ensures KeepsHolding(s, s', i) { assert SlotOk(s.main.pc, s.threads, s.slots[i], i); }
    IndexKept(s, s');
  }

  lemma MainKeepsIndex(c: Config, s: State, x: Choice, s': State)
    requires Inv(s) && Index(s) && MainStep(c, s, x) == Some(s')
    ensures Index(s')
  {
    match s.main.pc
    case AtKeys(kp) => KeysLocks(s, kp, x, s'); KeysTable(s, kp, x, s'); IndexKept(s, s');
    case AtSubmit(sp) => SubmitIndex(s, sp, s');
    case AtTimer(tp) => TimerLocks(c, s, tp, x, s'); IndexKept(s, s');
    case AtPick(pp) => PickIndex(c, s, pp, x, s');
    case AtCreate(cp) => CreateIndex(s, cp, x, s');
    case AtDraw(dp, final) => DrawLocks(s, dp, final, s'); IndexKept(s, s');
    case AtReap(rp) => ReapIndex(s, rp, s');
    case AtSweep(wp) => SweepIndex(s, wp, s');
  }

  lemma KeysTable(s: State, kp: KeysPc, x: Choice, s': State)
    requires s.main.pc == AtKeys(kp) && KeysStep(s, kp, x) == Some(s')
    ensures s'.game.table == s.game.table && (s'.main.pc.AtSubmit? ==> s'.main.pc.sp.SubmitWant?)
  {
  }

  lemma NextKeepsIndex(c: Config, s: State, s': State)
    requires Inv(s) && Index(s) && Next(c, s, s')
    ensures Index(s')
  {
    if MainNext(c, s, s') {
      var x :| MainStep(c, s, x) == Some(s');
      MainKeepsIndex(c, s, x, s');
    } else if t: nat :| t < |s.threads| && WordNext(c, s, t, s') {
      var x :| WordStep(c, s, t, x) == Some(s');
      WordTable(c, s, t, x, s');
      WordIndex(s, t, s');
    } else {
      IndexKept(s, s');
    }
  }

  lemma {:induction false} RunKeepsIndex(c: Config, tr: seq<State>, k: nat)
    requires Run(c, tr) && k < |tr|
    ensures Index(tr[k])
  {
    if k > 0 {
      RunKeepsIndex(c, tr, k - 1);
      RunInv(c, tr, k - 1);
      assert StepAt(c, tr, k);
      NextKeepsIndex(c, tr[k - 1], tr[k]);
    }
  }

  function ActiveTexts(slots: seq<Slot>): set<Bytes> {
    set i | 0 <= i < |slots| && slots[i].active :: slots[i].text
  }

  /** Whenever words_mutex is free, every text in the table is the text of a word on the screen. */
  lemma TableIsSound(c: Config, tr: seq<State>, k: nat)
    requires Run(c, tr) && k < |tr| && tr[k].locks.words == Nobody
    ensures tr[k].game.table <= ActiveTexts(tr[k].slots)
  {
    var s := tr[k];
    RunInv(c, tr, k);
    RunKeepsIndex(c, tr, k);
    forall w | w in s.game.table ensures w in ActiveTexts(s.slots) {
      assert Covered(s, w);
      var i :| 0 <= i < |s.slots| && s.slots[i].text == w && Holding(s.main.pc, s.threads, s.slots[i], i);
      assert SlotOk(s.main.pc, s.threads, s.slots[i], i);
      if s.slots[i].tid.Some? { assert WordLocks(s.slots[i].tid.value, s.threads[s.slots[i].tid.value].pc, s.locks); }
    }
  }

  // ---------- when the table is exactly the words on the screen ----------

  predicate RemovalDone(pc: WordPc) {
    pc == AtExit(ExitOut) || pc == AtExit(Returning) || pc == AtExit(Done)
  }

  /** Slot i's text is still in use: its word is on the screen, or its thread has yet to remove the text
      in its exit section. */
  predicate Held(pc: MainPc, threads: seq<Thread>, slot: Slot, i: int) {
    || Holding(pc, threads, slot, i)
    || (slot.tid.Some? && slot.tid.value < |threads| && !RemovalDone(threads[slot.tid.value].pc))
  }

  predicate AddPending(pc: MainPc, i: int) {
    pc.AtCreate? && (pc.cp.AddWant? || pc.cp.AddIn?) && pc.cp.i == i
  }

  predicate ExactAt(pc: MainPc, threads: seq<Thread>, slot: Slot, table: set<Bytes>, i: int) {
    && (slot.active && !AddPending(pc, i) ==> slot.text in table)
    && (Removing(pc, threads, slot, i) ==> !slot.active)
  }

  predicate Apart(pc: MainPc, threads: seq<Thread>, slots: seq<Slot>, i: int, j: int)
    requires 0 <= i < |slots| && 0 <= j < |slots|
  {
    Held(pc, threads, slots[i], i) && Held(pc, threads, slots[j], j) ==> slots[i].text != slots[j].text
  }

  ghost predicate Exact(s: State) {
    && (forall i :: 0 <= i < |s.slots| ==> ExactAt(s.main.pc, s.threads, s.slots[i], s.game.table, i))
    && (forall i, j :: 0 <= i < j < |s.slots| ==> Apart(s.main.pc, s.threads, s.slots, i, j))
  }

  /** The step does not place a text still in use, and finds memory for its table node. */
  ghost predicate Fresh(s: State, x: Choice) {
    match s.main.pc
    case AtPick(Place(i, pick)) =>
      forall j :: 0 <= j < |s.slots| && Held(s.main.pc, s.threads, s.slots[j], j) ==>
        s.slots[j].text != Truncated(pick, MAX_WORD_LEN - 1)
    case AtCreate(AddIn(i)) => x.room
    case _ => true
  }

  predicate StaysHeld(s: State, s': State, i: int)
    requires 0 <= i < |s.slots| == |s'.slots|
  {
    && (Held(s'.main.pc, s'.threads, s'.slots[i], i) ==>
          Held(s.main.pc, s.threads, s.slots[i], i) && s'.slots[i].text == s.slots[i].text)
    && (s'.slots[i].active && !AddPending(s'.main.pc, i) ==> s.slots[i].active && !AddPending(s.main.pc, i))
    && (Removing(s'.main.pc, s'.threads, s'.slots[i], i) ==> !s'.slots[i].active)
  }

  /** A step that places nothing and adds nothing keeps the table exact, if what it removes belonged to slot r. */
  lemma ExactKept(s: State, s': State, r: int)
    requires Exact(s) && |s'.slots| == |s.slots|
    requires forall i :: 0 <= i < |s.slots| ==> StaysHeld(s, s', i)
    requires s'.game.table == s.game.table
             || (0 <= r < |s.slots| && Removing(s.main.pc, s.threads, s.slots[r], r)
                 && s'.game.table == s.game.table - {s.slots[r].text})
    ensures Exact(s')
  {
    forall i | 0 <= i < |s'.slots| ensures ExactAt(s'.main.pc, s'.threads, s'.slots[i], s'.game.table, i) {
      assert StaysHeld(s, s', i) && ExactAt(s.main.pc, s.threads, s.slots[i], s.game.table, i);
      if s'.slots[i].active && 0 <= r < |s.slots| {
        assert ExactAt(s.main.pc, s.threads, s.slots[r], s.game.table, r);
        assert i < r ==> Apart(s.main.pc, s.threads, s.slots, i, r);
        assert r < i ==> Apart(s.main.pc, s.threads, s.slots, r, i);
      }
    }
    forall i, j | 0 <= i < j < |s'.slots| ensures Apart(s'.main.pc, s'.threads, s'.slots, i, j) {
      assert StaysHeld(s, s', i) && StaysHeld(s, s', j) && Apart(s.main.pc, s.threads, s.slots, i, j);
    }
  }

  lemma TypedExact(s: State, r: nat, s': State)
    requires Exact(s) && r < |s.slots| && s.main.pc == AtSubmit(SubmitIn) && s.slots[r].active
    requires s'.slots == s.slots[r := s.slots[r].(active := false)] && s'.threads == s.threads && s'.game == s.game
    requires s'.main.pc == AtSubmit(TypedHashWant(r, s.slots[r].wtype))
    ensures Exact(s')
  {
    forall i | 0 <= i < |s.slots| ensures StaysHeld(s, s', i) {
      assert ExactAt(s.main.pc, s.threads, s.slots[i], s.game.table, i);
    }
    ExactKept(s, s', -1);
  }

  /** Submitting a line changes the table only where it removes the text of the slot that was hit. */
  lemma CarryExact(s: State, sp: SubmitPc, s': State)
    requires Inv(s) && Exact(s) && s.main.pc == AtSubmit(sp) && SubmitStep(s, sp) == Some(s') && s'.slots == s.slots
    ensures Exact(s')
  {
    forall i | 0 <= i < |s.slots| ensures StaysHeld(s, s', i) {
      assert ExactAt(s.main.pc, s.threads, s.slots[i], s.game.table, i);
    }
    ExactKept(s, s', if sp.TypedHashIn? then sp.i else -1);
  }

  lemma SubmitExact(s: State, sp: SubmitPc, s': State)
    requires Inv(s) && Exact(s) && s.main.pc == AtSubmit(sp) && SubmitStep(s, sp) == Some(s')
    ensures Exact(s')
  {
    if sp.SubmitIn? && TargetUpTo(s.slots, s.main.input, |s.slots|) != -1 {
      TypedExact(s, TargetUpTo(s.slots, s.main.input, |s.slots|), s');
    } else {
      SubmitSlots(s, sp, s');
      CarryExact(s, sp, s');
    }
  }

  lemma PlaceExact(c: Config, s: State, i: nat, pick: Bytes, x: Choice, s': State)
    requires Inv(s) && Exact(s) && s.main.pc == AtPick(Place(i, pick)) && PickStep(c, s, Place(i, pick), x) == Some(s')
    requires Fresh(s, x)
    ensures Exact(s')
  {
    forall j | 0 <= j < |s.slots| && j != i ensures StaysHeld(s, s', j) {
      assert ExactAt(s.main.pc, s.threads, s.slots[j], s.game.table, j);
      assert SlotOk(s.main.pc, s.threads, s.slots[j], j);
    }
    forall j | 0 <= j < |s'.slots| ensures ExactAt(s'.main.pc, s'.threads, s'.slots[j], s'.game.table, j) {
      if j != i {
        assert StaysHeld(s, s', j) && ExactAt(s.main.pc, s.threads, s.slots[j], s.game.table, j);
      }
    }
    forall j, k | 0 <= j < k < |s'.slots| ensures Apart(s'.main.pc, s'.threads, s'.slots, j, k) {
      assert (j != i ==> StaysHeld(s, s', j)) && (k != i ==> StaysHeld(s, s', k));
      assert Apart(s.main.pc, s.threads, s.slots, j, k);
    }
  }

  lemma TakeSlotExact(c: Config, s: State, x: Choice, s': State)
    requires Inv(s) && Exact(s) && s.main.pc == AtPick(SpawnIn) && PickStep(c, s, SpawnIn, x) == Some(s')
    ensures Exact(s')
  {
    forall j | 0 <= j < |s.slots| ensures StaysHeld(s, s', j) {
      assert ExactAt(s.main.pc, s.threads, s.slots[j], s.game.table, j);
    }
    ExactKept(s, s', -1);
  }

  lemma PickExact(c: Config, s: State, pp: PickPc, x: Choice, s': State)
    requires Inv(s) && Exact(s) && s.main.pc == AtPick(pp) && PickStep(c, s, pp, x) == Some(s') && Fresh(s, x)
    ensures Exact(s')
  {
    if pp.Place? { PlaceExact(c, s, pp.i, pp.pick, x, s'); }
    else if pp.SpawnIn? { TakeSlotExact(c, s, x, s'); }
    else {
      forall j | 0 <= j < |s.slots| ensures StaysHeld(s, s', j) {
        assert ExactAt(s.main.pc, s.threads, s.slots[j], s.game.table, j);
      }
      ExactKept(s, s', -1);
    }
  }

  lemma AddExact(s: State, i: nat, x: Choice, s': State)
    requires Inv(s) && Exact(s) && s.main.pc == AtCreate(AddIn(i)) && CreateStep(s, AddIn(i), x) == Some(s') && x.room
    ensures Exact(s')
  {
    assert SlotOk(s.main.pc, s.threads, s.slots[i], i);
    forall j | 0 <= j < |s'.slots| ensures ExactAt(s'.main.pc, s'.threads, s'.slots[j], s'.game.table, j) {
      assert ExactAt(s.main.pc, s.threads, s.slots[j], s.game.table, j);
    }
    forall j | 0 <= j < |s'.slots|
      ensures Held(s'.main.pc, s'.threads, s'.slots[j], j) == Held(s.main.pc, s.threads, s.slots[j], j)
    {}
    forall j, k | 0 <= j < k < |s'.slots| ensures Apart(s'.main.pc, s'.threads, s'.slots, j, k) {
      assert Apart(s.main.pc, s.threads, s.slots, j, k);
    }
  }

  lemma CreateExact(s: State, cp: CreatePc, x: Choice, s': State)
    requires Inv(s) && Exact(s) && s.main.pc == AtCreate(cp) && CreateStep(s, cp, x) == Some(s') && Fresh(s, x)
    ensures Exact(s')
  {
    if cp.AddIn? { AddExact(s, cp.i, x, s'); }
    else {
      forall i | 0 <= i < |s.slots| ensures StaysHeld(s, s', i) {
        assert SlotOk(s.main.pc, s.threads, s.slots[i], i);
        assert ExactAt(s.main.pc, s.threads, s.slots[i], s.game.table, i);
      }
      ExactKept(s, s', if cp.UndoIn? then cp.i else -1);
    }
  }

  lemma QuietExact(s: State, s': State)
    requires Exact(s) && s'.threads == s.threads && s'.slots == s.slots && s'.game.table == s.game.table
    requires forall i :: MainRemoves(s'.main.pc, i) == MainRemoves(s.main.pc, i)
    requires forall i :: AddPending(s'.main.pc, i) == AddPending(s.main.pc, i)
    ensures Exact(s')
  {
    forall i | 0 <= i < |s.slots| ensures StaysHeld(s, s', i) {
      assert ExactAt(s.main.pc, s.threads, s.slots[i], s.game.table, i);
    }
    ExactKept(s, s', -1);
  }

  /** Main is neither submitting nor spawning. */
  predicate Idling(pc: MainPc) {
    pc.AtReap? || pc.AtSweep? || pc.AtDraw? || pc.AtKeys?
  }

  /** A slot keeps its word, or loses only what nobody holds any more. */
  predicate SameOrLess(a: Slot, b: Slot) {
    b == a.(toRemove := b.toRemove) || (b.tid.None? && !b.active)
  }

  lemma CleaningExact(s: State, s': State)
    requires Exact(s) && Idling(s.main.pc) && Idling(s'.main.pc)
    requires s'.threads == s.threads && s'.game.table == s.game.table && |s'.slots| == |s.slots|
    requires forall i :: 0 <= i < |s.slots| ==> SameOrLess(s.slots[i], s'.slots[i])
    ensures Exact(s')
  {
    forall i | 0 <= i < |s.slots| ensures StaysHeld(s, s', i) {
      assert SameOrLess(s.slots[i], s'.slots[i]);
      assert ExactAt(s.main.pc, s.threads, s.slots[i], s.game.table, i);
    }
    ExactKept(s, s', -1);
  }

  lemma ReapExact(s: State, rp: ReapPc, s': State)
    requires Inv(s) && Exact(s) && s.main.pc == AtReap(rp) && ReapStep(s, rp) == Some(s')
    ensures Exact(s')
  {
    CleaningExact(s, s');
  }

  lemma SweepExact(s: State, wp: SweepPc, s': State)
    requires Inv(s) && Exact(s) && s.main.pc == AtSweep(wp) && SweepStep(s, wp) == Some(s')
    ensures Exact(s')
  {
    CleaningExact(s, s');
  }

  lemma WordExact(s: State, t: nat, s': State)
    requires Inv(s) && Exact(s) && t < |s.threads| && TableEffect(s, t, s')
    ensures Exact(s')
  {
    assert ThreadOk(s.main.pc, s.slots, s.threads[t], t);
    forall i | 0 <= i < |s.slots| ensures StaysHeld(s, s', i) {
      assert SlotOk(s.main.pc, s.threads, s.slots[i], i);
      assert ExactAt(s.main.pc, s.threads, s.slots[i], s.game.table, i);
    }
    ExactKept(s, s', s.threads[t].slot);
  }

  lemma MainKeepsExact(c: Config, s: State, x: Choice, s': State)
    requires Inv(s) && Exact(s) && MainStep(c, s, x) == Some(s') && Fresh(s, x)
    ensures Exact(s')
  {
    match s.main.pc
    case AtKeys(kp) => KeysLocks(s, kp, x, s'); KeysTable(s, kp, x, s'); QuietExact(s, s');
    case AtSubmit(sp) => SubmitExact(s, sp, s');
    case AtTimer(tp) => TimerLocks(c, s, tp, x, s'); QuietExact(s, s');
    case AtPick(pp) => PickExact(c, s, pp, x, s');
    case AtCreate(cp) => CreateExact(s, cp, x, s');
    case AtDraw(dp, final) => DrawLocks(s, dp, final, s'); QuietExact(s, s');
    case AtReap(rp) => ReapExact(s, rp, s');
    case AtSweep(wp) => SweepExact(s, wp, s');
  }

  /** A step in which main, if it places a word, places a fresh one. */
  ghost predicate FreshNext(c: Config, s: State, s': State)
    requires Shape(s)
  {
    || (exists x :: Fresh(s, x) && MainStep(c, s, x) == Some(s'))
    || (exists t: nat :: t < |s.threads| && WordNext(c, s, t, s'))
    || s' == s.(signalled := true)
  }

  ghost predicate FreshAt(c: Config, tr: seq<State>, k: int)
    requires 0 < k < |tr| && Shape(tr[k - 1])
  {
    FreshNext(c, tr[k - 1], tr[k])
  }

  /** A run in which no word is placed while its text is still in use. */
  ghost predicate FreshRun(c: Config, tr: seq<State>) {
    Run(c, tr) && (forall k :: 0 < k < |tr| ==> FreshAt(c, tr, k))
  }

  lemma FreshNextKeepsExact(c: Config, s: State, s': State)
    requires Inv(s) && Exact(s) && FreshNext(c, s, s')
    ensures Exact(s')
  {
    if x :| Fresh(s, x) && MainStep(c, s, x) == Some(s') {
      MainKeepsExact(c, s, x, s');
    } else if t: nat :| t < |s.threads| && WordNext(c, s, t, s') {
      var x :| WordStep(c, s, t, x) == Some(s');
      WordTable(c, s, t, x, s');
      WordExact(s, t, s');
    } else {
      QuietExact(s, s');
    }
  }

  lemma {:induction false} FreshRunIsExact(c: Config, tr: seq<State>, k: nat)
    requires FreshRun(c, tr) && k < |tr|
    ensures Exact(tr[k])
  {
    if k > 0 {
      FreshRunIsExact(c, tr, k - 1);
      RunInv(c, tr, k - 1);
      assert FreshAt(c, tr, k);
      FreshNextKeepsExact(c, tr[k - 1], tr[k]);
    }
  }

  /** In such a run the table is exactly the set of texts on the screen whenever words_mutex is free. */
  lemma TableIsExact(c: Config, tr: seq<State>, k: nat)
    requires FreshRun(c, tr) && k < |tr| && tr[k].locks.words == Nobody
    ensures tr[k].game.table == ActiveTexts(tr[k].slots)
  {
    var s := tr[k];
    TableIsSound(c, tr, k);
    FreshRunIsExact(c, tr, k);
    RunInv(c, tr, k);
    forall i | 0 <= i < |s.slots| && s.slots[i].active ensures s.slots[i].text in s.game.table {
      assert ExactAt(s.main.pc, s.threads, s.slots[i], s.game.table, i);
    }
  }
}
