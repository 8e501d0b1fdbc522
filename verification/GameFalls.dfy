/** Where a word falls: it is as far down as it has dropped, and falls at the drop that takes it to the bottom row. */
module GameFalls {
  import opened Bytes
  import opened Game
  import opened GameLocks
  import opened GameProgress
  import opened GameBooks

  /** In this step word t, on the screen, drops: its thread passes the middle of its drop section. */
  predicate Drops(s: State, s': State, t: nat) {
    && OnScreen(s, t) && t < |s'.threads|
    && s.threads[t].pc == AtDrop(DropIn) && s'.threads[t].pc != AtDrop(DropIn)
  }

  /** How often word t has dropped in the first k steps of a run. */
  function DropCount(tr: seq<State>, k: nat, t: nat): nat
    requires k < |tr|
  {
    if k == 0 then 0 else DropCount(tr, k - 1, t) + One(Drops(tr[k - 1], tr[k], t))
  }

  function Row(s: State, t: nat): int
    requires OnScreen(s, t)
  {
    s.slots[s.threads[t].slot].y
  }

  /** Word t has dropped d times. */
  predicate FallsAt(c: Config, s: State, t: nat, d: nat) {
    && (t >= |s.threads| ==> d == 0)
    && (OnScreen(s, t) ==> Row(s, t) == d < c.height)
    && d <= c.height && Falls(s.hist.log, t) == One(d == c.height)
  }

  // ---------- one step ----------

  /** Word t stays on its row, leaves the screen without a fall, or is placed on row 0. */
  predicate Stays(s: State, s': State, t: nat) {
    && |s.threads| <= |s'.threads| && Falls(s'.hist.log, t) == Falls(s.hist.log, t)
    && (OnScreen(s', t) ==> if t < |s.threads| then OnScreen(s, t) && Row(s', t) == Row(s, t) else Row(s', t) == 0)
  }

  /** Word t is one row down, or falls. */
  predicate Descends(c: Config, s: State, s': State, t: nat) {
    && OnScreen(s, t) && |s.threads| == |s'.threads|
    && if Row(s, t) + 1 < c.height
       then OnScreen(s', t) && Row(s', t) == Row(s, t) + 1 && Falls(s'.hist.log, t) == Falls(s.hist.log, t)
       else !OnScreen(s', t) && Falls(s'.hist.log, t) == Falls(s.hist.log, t) + 1
  }

  predicate SlotStays(a: Slot, b: Slot) {
    b.active ==> a.active && b.inst == a.inst && b.y == a.y
  }

  predicate ThreadStays(a: Thread, b: Thread) {
    b.slot == a.slot && (a.pc.AtDrop? ==> b == a)
  }

  /** The log has at most one event more, and that is no fall. */
  predicate NoFall(log: seq<Event>, log': seq<Event>) {
    log' == log || (|log'| > 0 && log' == log + [log'[|log'| - 1]] && !log'[|log'| - 1].Fell?)
  }

  lemma NoFallCounts(log: seq<Event>, log': seq<Event>, t: nat)
    requires NoFall(log, log')
    ensures Falls(log', t) == Falls(log, t)
  {
    if log' != log { LogGrows(log, log'[|log'| - 1]); }
  }

  /** A step of main other than the placing of a word. */
  ghost predicate NothingDrops(s: State, s': State) {
    && |s'.slots| == |s.slots| && |s'.threads| == |s.threads| && NoFall(s.hist.log, s'.hist.log)
    && (forall i :: 0 <= i < |s.slots| ==> SlotStays(s.slots[i], s'.slots[i]))
    && (forall t :: 0 <= t < |s.threads| ==> ThreadStays(s.threads[t], s'.threads[t]))
  }

  lemma NothingDropsStays(s: State, s': State, t: nat)
    requires Shape(s) && NothingDrops(s, s')
    ensures Stays(s, s', t) && !Drops(s, s', t)
  {
    NoFallCounts(s.hist.log, s'.hist.log, t);
    assert t < |s.threads| ==> ThreadStays(s.threads[t], s'.threads[t]);
    if OnScreen(s', t) {
      assert SlotStays(s.slots[s.threads[t].slot], s'.slots[s.threads[t].slot]);
    }
  }

  lemma SubmitFalls(s: State, sp: SubmitPc, s': State)
    requires Shape(s) && s.main.pc == AtSubmit(sp) && SubmitStep(s, sp) == Some(s')
    ensures NothingDrops(s, s')
  {
  }

  lemma PickFalls(c: Config, s: State, pp: PickPc, x: Choice, s': State)
    requires Shape(s) && s.main.pc == AtPick(pp) && PickStep(c, s, pp, x) == Some(s') && !pp.Place?
    ensures NothingDrops(s, s')
  {
  }

  lemma CreateFalls(s: State, cp: CreatePc, x: Choice, s': State)
    requires Inv(s) && s.main.pc == AtCreate(cp) && CreateStep(s, cp, x) == Some(s')
    ensures NothingDrops(s, s')
  {
    if !cp.SpawnOut? { assert SlotOk(s.main.pc, s.threads, s.slots[cp.i], cp.i); }
  }

  lemma ReapFalls(s: State, rp: ReapPc, s': State)
    requires Shape(s) && s.main.pc == AtReap(rp) && ReapStep(s, rp) == Some(s')
    ensures NothingDrops(s, s')
  {
  }

  lemma SweepFalls(s: State, wp: SweepPc, s': State)
    requires Shape(s) && s.main.pc == AtSweep(wp) && SweepStep(s, wp) == Some(s')
    ensures NothingDrops(s, s')
  {
  }

  /** A word is placed on row 0, in a slot that showed none. */
  lemma PlaceFalls(c: Config, s: State, i: nat, pick: Bytes, x: Choice, s': State, t: nat)
    requires Inv(s) && s.main.pc == AtPick(Place(i, pick)) && PickStep(c, s, Place(i, pick), x) == Some(s')
    ensures Stays(s, s', t) && !Drops(s, s', t)
  {
    assert SlotOk(s.main.pc, s.threads, s.slots[i], i);
  }

  lemma MainFalls(c: Config, s: State, x: Choice, s': State, t: nat)
    requires Inv(s) && MainStep(c, s, x) == Some(s')
    ensures Stays(s, s', t) && !Drops(s, s', t)
  {
    match s.main.pc {
      case AtKeys(kp) => KeysData(s, kp, x, s');
      case AtSubmit(sp) => SubmitFalls(s, sp, s');
      case AtTimer(tp) => TimerLocks(c, s, tp, x, s');
      case AtPick(pp) =>
        if pp.Place? {
          PlaceFalls(c, s, pp.i, pp.pick, x, s', t);
          return;
        }
        PickFalls(c, s, pp, x, s');
      case AtCreate(cp) => CreateFalls(s, cp, x, s');
      case AtDraw(dp, final) => DrawData(s, dp, final, s');
      case AtReap(rp) => ReapFalls(s, rp, s');
      case AtSweep(wp) => SweepFalls(s, wp, s');
    }
    NothingDropsStays(s, s', t);
  }

  /** What the step of thread u does to its own slot and to the log, outside a drop. */
  predicate Quiet(s: State, u: nat, s': State)
    requires Shape(s) && u < |s.threads| && |s'.slots| == |s.slots|
  {
    SlotStays(s.slots[s.threads[u].slot], s'.slots[s.threads[u].slot]) && NoFall(s.hist.log, s'.hist.log)
  }

  lemma QuietStays(s: State, u: nat, s': State, t: nat)
    requires Shape(s) && u < |s.threads| && WordEffect(s, u, s') && Quiet(s, u, s')
    ensures Stays(s, s', t)
  {
    NoFallCounts(s.hist.log, s'.hist.log, t);
  }

  lemma PollFalls(s: State, u: nat, pp: PollPc, x: Choice, s': State)
    requires Shape(s) && u < |s.threads| && s.threads[u].pc == AtPoll(pp) && PollStep(s, u, pp, x) == Some(s')
    ensures |s'.slots| == |s.slots| && Quiet(s, u, s')
  {
  }

  lemma ExitFalls(s: State, u: nat, ep: ExitPc, s': State)
    requires Shape(s) && u < |s.threads| && s.threads[u].pc == AtExit(ep) && ExitStep(s, u, ep) == Some(s')
    ensures |s'.slots| == |s.slots| && Quiet(s, u, s')
  {
  }

  lemma DropFalls(c: Config, s: State, u: nat, dp: DropPc, s': State)
    requires Shape(s) && u < |s.threads| && s.threads[u].pc == AtDrop(dp) && DropStep(c, s, u, dp) == Some(s')
    requires !(dp.DropIn? && s.slots[s.threads[u].slot].active)
    ensures |s'.slots| == |s.slots| && Quiet(s, u, s')
  {
  }

  /** The drop itself: the row is counted up, and the bottom row takes the word off the screen. */
  lemma DropDescends(c: Config, s: State, u: nat, s': State, t: nat)
    requires Inv(s) && u < |s.threads| && s.threads[u].pc == AtDrop(DropIn) && DropStep(c, s, u, DropIn) == Some(s')
    requires s.slots[s.threads[u].slot].active && WordEffect(s, u, s')
    ensures if t == u then Descends(c, s, s', t) else Stays(s, s', t)
  {
    OwnSlot(s, u);
    LogGrows(s.hist.log, Fell(u));
  }

  lemma WordFalls(c: Config, s: State, u: nat, x: Choice, s': State, t: nat)
    requires Inv(s) && u < |s.threads| && WordStep(c, s, u, x) == Some(s')
    ensures if Drops(s, s', t) then Descends(c, s, s', t) else Stays(s, s', t)
  {
    WordStepEffect(c, s, u, x, s');
    match s.threads[u].pc {
      case AtPoll(pp) => PollFalls(s, u, pp, x, s');
      case AtDrop(dp) =>
        if dp.DropIn? { DropMoves(c, s, u, s'); }
        if dp.DropIn? && s.slots[s.threads[u].slot].active {
          OwnSlot(s, u);
          DropDescends(c, s, u, s', t);
          return;
        }
        DropFalls(c, s, u, dp, s');
      case AtExit(ep) => ExitFalls(s, u, ep, s');
      case _ =>
    }
    QuietStays(s, u, s', t);
  }

  lemma DropMoves(c: Config, s: State, u: nat, s': State)
    requires Shape(s) && u < |s.threads| && s.threads[u].pc == AtDrop(DropIn) && DropStep(c, s, u, DropIn) == Some(s')
    ensures |s'.threads| == |s.threads| && s'.threads[u].pc != AtDrop(DropIn)
  {
  }

  lemma NextFalls(c: Config, s: State, s': State, t: nat)
    requires Inv(s) && Next(c, s, s')
    ensures if Drops(s, s', t) then Descends(c, s, s', t) else Stays(s, s', t)
  {
    if MainNext(c, s, s') {
      var x :| MainStep(c, s, x) == Some(s');
      MainFalls(c, s, x, s', t);
    } else if u: nat :| u < |s.threads| && WordNext(c, s, u, s') {
      var x :| WordStep(c, s, u, x) == Some(s');
      WordFalls(c, s, u, x, s', t);
    }
  }

  lemma StepFallsAt(c: Config, s: State, s': State, t: nat, d: nat)
    requires Inv(s) && Next(c, s, s') && FallsAt(c, s, t, d) && ValidConfig(c)
    ensures FallsAt(c, s', t, d + One(Drops(s, s', t)))
  {
    NextFalls(c, s, s', t);
  }

  // ---------- every run ----------

  lemma RunStep(c: Config, tr: seq<State>, k: nat, t: nat, d: nat)
    requires ValidConfig(c) && Run(c, tr) && 0 < k < |tr| && FallsAt(c, tr[k - 1], t, d)
    ensures FallsAt(c, tr[k], t, d + One(Drops(tr[k - 1], tr[k], t)))
  {
    RunInv(c, tr, k - 1);
    assert StepAt(c, tr, k);
    StepFallsAt(c, tr[k - 1], tr[k], t, d);
  }

  lemma StartsAt(c: Config, s: State, t: nat)
    requires ValidConfig(c) && s.threads == [] && s.hist.log == []
    ensures FallsAt(c, s, t, 0)
  {
  }

  lemma {:induction false} RunFallsAt(c: Config, tr: seq<State>, k: nat, t: nat)
    requires ValidConfig(c) && Run(c, tr) && k < |tr|
    ensures FallsAt(c, tr[k], t, DropCount(tr, k, t))
  {
    if k == 0 {
      StartsAt(c, tr[0], t);
    } else {
      RunFallsAt(c, tr, k - 1, t);
      RunStep(c, tr, k, t, DropCount(tr, k - 1, t));
    }
  }

  /** In every run, for every word: while it is on the screen its row is the number of its drops so far, less than the
      height; it falls at its drop number `height`, and at no other moment. */
  lemma FallsAtTheBottom(c: Config, tr: seq<State>, k: nat, t: nat)
    requires ValidConfig(c) && Run(c, tr) && k < |tr|
    ensures OnScreen(tr[k], t) ==> Row(tr[k], t) == DropCount(tr, k, t) < c.height
    ensures DropCount(tr, k, t) <= c.height
    ensures Falls(tr[k].hist.log, t) == One(DropCount(tr, k, t) == c.height)
  {
    RunFallsAt(c, tr, k, t);
  }
}
