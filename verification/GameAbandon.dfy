/** A word is abandoned, taken off the screen by its own thread's exit, only once the game is over. */
module GameAbandon {
  import opened Bytes
  import opened Game
  import opened GameLocks
  import opened GameProgress

  /** The thread has read that its word is not active any more. */
  predicate SeenInactive(pc: WordPc) {
    pc.AtPoll? && ((pc.pp.OverWant? && !pc.pp.active) || (pc.pp.OverIn? && !pc.pp.active))
  }

  predicate ExitStarting(pc: WordPc) {
    pc.AtExit? && (pc.ep.ExitWant? || pc.ep.ExitIn?)
  }

  predicate SlotOff(s: State, t: int)
    requires Shape(s) && 0 <= t < |s.threads|
  {
    !s.slots[s.threads[t].slot].active
  }

  /** A thread starts its exit for a reason: its word is off the screen or the game is over. */
  ghost predicate ExitsForCause(s: State)
    requires Shape(s)
  {
    && (forall t :: 0 <= t < |s.threads| && SeenInactive(s.threads[t].pc) ==> SlotOff(s, t))
    && (forall t :: 0 <= t < |s.threads| && ExitStarting(s.threads[t].pc) ==> SlotOff(s, t) || s.game.over)
    && (forall e :: e in s.hist.log && e.Abandoned? ==> s.game.over)
  }

  // ---------- word threads ----------

  /** What a word thread's step means here. */
  predicate CauseEffect(s: State, t: nat, s': State)
    requires Shape(s) && Shape(s') && t < |s.threads| == |s'.threads|
  {
    && (s.game.over ==> s'.game.over)
    && (SeenInactive(s'.threads[t].pc) ==> SeenInactive(s.threads[t].pc) || SlotOff(s', t))
    && (ExitStarting(s'.threads[t].pc) ==>
          ExitStarting(s.threads[t].pc) || SeenInactive(s.threads[t].pc) || s'.game.over)
    && (s'.hist.log == s.hist.log || (|s'.hist.log| > 0 && s'.hist.log == s.hist.log + [s'.hist.log[|s'.hist.log| - 1]]
        && (s'.hist.log[|s'.hist.log| - 1].Abandoned? ==> ExitStarting(s.threads[t].pc) && !SlotOff(s, t))))
  }

  lemma PollCause(s: State, t: nat, pp: PollPc, x: Choice, s': State)
    requires Shape(s) && Shape(s') && t < |s.threads| && s.threads[t].pc == AtPoll(pp)
    requires PollStep(s, t, pp, x) == Some(s')
    ensures |s'.threads| == |s.threads| && CauseEffect(s, t, s')
  {
  }

  lemma DropCause(c: Config, s: State, t: nat, dp: DropPc, s': State)
    requires Shape(s) && Shape(s') && t < |s.threads| && s.threads[t].pc == AtDrop(dp)
    requires DropStep(c, s, t, dp) == Some(s')
    ensures |s'.threads| == |s.threads| && CauseEffect(s, t, s')
  {
  }

  lemma ExitCause(s: State, t: nat, ep: ExitPc, s': State)
    requires Shape(s) && Shape(s') && t < |s.threads| && s.threads[t].pc == AtExit(ep) && ExitStep(s, t, ep) == Some(s')
    ensures |s'.threads| == |s.threads| && CauseEffect(s, t, s')
  {
  }

  lemma WordKeepsCause(s: State, t: nat, s': State)
    requires Shape(s) && Shape(s') && ExitsForCause(s) && t < |s.threads|
    requires WordEffect(s, t, s') && CauseEffect(s, t, s')
    ensures ExitsForCause(s')
  {
    forall u | 0 <= u < |s'.threads| ensures SlotOff(s, u) ==> SlotOff(s', u) {
    }
    forall u | 0 <= u < |s'.threads| && u != t ensures s'.threads[u] == s.threads[u] {
    }
  }

  // ---------- main ----------

  /** What main's step means here. */
  ghost predicate MainCause(s: State, s': State)
    requires Shape(s) && Shape(s')
  {
    && (s.game.over ==> s'.game.over)
    && (forall i :: 0 <= i < |s.slots| && s'.slots[i].active ==> s.slots[i].active || Reserving(s.main.pc, i))
    && (forall e :: e in s'.hist.log && e.Abandoned? ==> e in s.hist.log)
    && |s.threads| <= |s'.threads|
    && (forall t :: 0 <= t < |s'.threads| ==> ThreadKept(s, s', t))
  }

  predicate ThreadKept(s: State, s': State, t: int)
    requires 0 <= t < |s'.threads|
  {
    || (t < |s.threads| && s'.threads[t] == s.threads[t])
    || s'.threads[t].pc == AtPoll(Top) || Unborn(s'.threads[t].pc)
  }

  lemma KeysCause(s: State, kp: KeysPc, x: Choice, s': State)
    requires Shape(s) && Shape(s') && s.main.pc == AtKeys(kp) && KeysStep(s, kp, x) == Some(s')
    ensures MainCause(s, s')
  {
  }

  lemma SubmitCause(s: State, sp: SubmitPc, s': State)
    requires Shape(s) && Shape(s') && s.main.pc == AtSubmit(sp) && SubmitStep(s, sp) == Some(s')
    ensures MainCause(s, s')
  {
  }

  lemma PickCause(c: Config, s: State, pp: PickPc, x: Choice, s': State)
    requires Shape(s) && Shape(s') && s.main.pc == AtPick(pp) && PickStep(c, s, pp, x) == Some(s')
    ensures MainCause(s, s')
  {
  }

  lemma CreateCause(s: State, cp: CreatePc, x: Choice, s': State)
    requires Shape(s) && Shape(s') && s.main.pc == AtCreate(cp) && CreateStep(s, cp, x) == Some(s')
    ensures MainCause(s, s')
  {
  }

  lemma ReapCause(s: State, rp: ReapPc, s': State)
    requires Shape(s) && Shape(s') && s.main.pc == AtReap(rp) && ReapStep(s, rp) == Some(s')
    ensures MainCause(s, s')
  {
  }

  lemma SweepCause(s: State, wp: SweepPc, s': State)
    requires Shape(s) && Shape(s') && s.main.pc == AtSweep(wp) && SweepStep(s, wp) == Some(s')
    ensures MainCause(s, s')
  {
  }

  lemma MainHasCause(c: Config, s: State, x: Choice, s': State)
    requires Inv(s) && Shape(s') && MainStep(c, s, x) == Some(s')
    ensures MainCause(s, s')
  {
    match s.main.pc
    case AtKeys(kp) => KeysCause(s, kp, x, s');
    case AtSubmit(sp) => SubmitCause(s, sp, s');
    case AtTimer(tp) => TimerLocks(c, s, tp, x, s');
    case AtPick(pp) => PickCause(c, s, pp, x, s');
    case AtCreate(cp) => CreateCause(s, cp, x, s');
    case AtDraw(dp, final) => DrawLocks(s, dp, final, s');
    case AtReap(rp) => ReapCause(s, rp, s');
    case AtSweep(wp) => SweepCause(s, wp, s');
  }

  /** The slot main places a word in belongs to no running thread. */
  lemma MainKeepsCause(s: State, s': State)
    requires Inv(s) && Shape(s') && ExitsForCause(s) && MainCause(s, s')
    ensures ExitsForCause(s')
  {
    forall t | 0 <= t < |s'.threads| && (SeenInactive(s'.threads[t].pc) || ExitStarting(s'.threads[t].pc))
      ensures t < |s.threads| && s'.threads[t] == s.threads[t] && (SlotOff(s, t) ==> SlotOff(s', t))
    {
      assert ThreadKept(s, s', t);
      assert ThreadOk(s.main.pc, s.slots, s.threads[t], t);
      assert SlotOk(s.main.pc, s.threads, s.slots[s.threads[t].slot], s.threads[t].slot);
    }
  }

  // ---------- every run ----------

  lemma NextKeepsCause(c: Config, s: State, s': State)
    requires PlayInv(c, s) && ExitsForCause(s) && Next(c, s, s')
    ensures PlayInv(c, s') && ExitsForCause(s')
  {
    NextKeepsPlayInv(c, s, s');
    if MainNext(c, s, s') {
      var x :| MainStep(c, s, x) == Some(s');
      MainHasCause(c, s, x, s');
      MainKeepsCause(s, s');
    } else if t: nat :| t < |s.threads| && WordNext(c, s, t, s') {
      var x :| WordStep(c, s, t, x) == Some(s');
      WordStepEffect(c, s, t, x, s');
      match s.threads[t].pc {
        case AtPoll(pp) => PollCause(s, t, pp, x, s');
        case AtDrop(dp) => DropCause(c, s, t, dp, s');
        case AtExit(ep) => ExitCause(s, t, ep, s');
        case _ =>
      }
      WordKeepsCause(s, t, s');
    } else {
      MainKeepsCause(s, s');
    }
  }

  lemma InitCause(s: State)
    requires Shape(s) && s.threads == [] && s.hist.log == []
    ensures ExitsForCause(s)
  {
  }

  lemma StepKeepsCause(c: Config, tr: seq<State>, k: nat)
    requires Run(c, tr) && 0 < k < |tr| && ExitsForCause(tr[k - 1])
    ensures ExitsForCause(tr[k])
  {
    RunInv(c, tr, k - 1);
    assert StepAt(c, tr, k);
    NextKeepsCause(c, tr[k - 1], tr[k]);
  }

  lemma {:induction false} RunKeepsCause(c: Config, tr: seq<State>, k: nat)
    requires Run(c, tr) && k < |tr|
    ensures ExitsForCause(tr[k])
  {
    if k == 0 {
      InitCause(tr[0]);
    } else {
      RunKeepsCause(c, tr, k - 1);
      StepKeepsCause(c, tr, k);
    }
  }

  /** While the game is on no word has been abandoned: words leave the screen only typed or fallen. */
  lemma AbandonedOnlyWhenOver(c: Config, tr: seq<State>, k: nat, i: nat)
    requires Run(c, tr) && k < |tr| && i < |tr[k].hist.log| && tr[k].hist.log[i].Abandoned?
    ensures tr[k].game.over
  {
    RunKeepsCause(c, tr, k);
  }
}
