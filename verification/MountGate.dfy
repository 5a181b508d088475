/**
 The mount gate: calls count themselves in before they look whether it is closed,
 unmount closes it before it looks at the counts. Every atomic access is a step.
 */
module MountGate {
  const SLOTS: nat := 64

  /** Where a call is; a thread that is not in one is absent. */
  datatype Pc = Counted | Refusing | Inside

  /** What the holder of the change mutex is doing. */
  datatype Change = Nobody | Mounting | Opening | Closing | Draining(next: nat) | Emptying

  datatype State = State(closed: bool, slots: seq<int>, pc: map<nat, Pc>, change: Change, mounted: bool)

  /** Threads share slots, by the order they first came. */
  function SlotOf(t: nat): (r: nat)
    ensures r < SLOTS
  {
    t % SLOTS
  }

  function Add(s: State, t: nat, d: int): State {
    if |s.slots| == SLOTS then s.(slots := s.slots[SlotOf(t) := s.slots[SlotOf(t)] + d]) else s
  }

  predicate At(s: State, t: nat, p: Pc) {
    t in s.pc && s.pc[t] == p
  }

  predicate Init(s: State) {
    s == State(true, seq(SLOTS, _ => 0), map[], Nobody, false)
  }

  // --------------------------------------------------------------- the calls

  predicate Enter(s: State, t: nat, s': State) {
    t !in s.pc && s' == Add(s, t, 1).(pc := s.pc[t := Counted])
  }

  predicate Look(s: State, t: nat, s': State) {
    At(s, t, Counted) && s' == s.(pc := s.pc[t := if s.closed then Refusing else Inside])
  }

  /** Out again: having seen the gate closed, or at the end of the call. */
  predicate Leave(s: State, t: nat, s': State) {
    (At(s, t, Refusing) || At(s, t, Inside)) && s' == Add(s, t, -1).(pc := s.pc - {t})
  }

  // ------------------------------------------------------- mount and unmount

  /** The file system is made with the gate closed, or not made. */
  predicate Mount(s: State, works: bool, s': State) {
    || (s.change == Nobody && !s.mounted && s' == s.(change := Mounting))
    || (s.change == Mounting && s' == s.(change := if works then Opening else Nobody, mounted := works))
  }

  predicate Open(s: State, s': State) {
    s.change == Opening && s' == s.(closed := false, change := Nobody)
  }

  predicate Unmount(s: State, s': State) {
    || (s.change == Nobody && s.mounted && s' == s.(change := Closing))
    || (s.change == Closing && s' == s.(closed := true, change := Draining(0)))
  }

  /** One look at one slot. */
  predicate Drain(s: State, s': State) {
    && s.change.Draining? && s.change.next < SLOTS && |s.slots| == SLOTS
    && s' == s.(change := if s.slots[s.change.next] == 0 then Draining(s.change.next + 1) else s.change)
  }

  /** close_and_drain has returned: the file system is taken away, and closed. */
  predicate Take(s: State, s': State) {
    || (s.change == Draining(SLOTS) && s' == s.(change := Emptying, mounted := false))
    || (s.change == Emptying && s' == s.(change := Nobody))
  }

  ghost predicate Next(s: State, s': State) {
    || (exists t :: Enter(s, t, s') || Look(s, t, s') || Leave(s, t, s'))
    || (exists works :: Mount(s, works, s'))
    || Open(s, s') || Unmount(s, s') || Drain(s, s') || Take(s, s')
  }

  ghost predicate IsRun(states: seq<State>) {
    |states| > 0 && Init(states[0]) && forall i: nat :: i < |states| - 1 ==> StepAt(states, i)
  }

  ghost predicate StepAt(states: seq<State>, i: nat)
    requires i < |states| - 1
  {
    Next(states[i], states[i + 1])
  }

  predicate OpensAt(states: seq<State>, i: nat)
    requires i < |states| - 1
  {
    Open(states[i], states[i + 1])
  }

  // ------------------------------------------------------------ what it keeps

  /** The calls counted in slot i. */
  function Here(s: State, i: nat): set<nat> {
    set t | t in s.pc && SlotOf(t) == i
  }

  predicate CountsOk(s: State) {
    |s.slots| == SLOTS && forall i: nat :: i < SLOTS ==> s.slots[i] == |Here(s, i)|
  }

  /** Slots from this one on may still hold a call that is inside. */
  function Unseen(s: State): nat {
    if !s.closed then 0 else if s.change.Draining? then s.change.next else SLOTS
  }

  predicate Excludes(s: State) {
    forall t :: t in s.pc && s.pc[t] == Inside ==> Unseen(s) <= SlotOf(t)
  }

  predicate ChangeOk(s: State) {
    match s.change
    case Nobody => s.mounted == !s.closed
    case Mounting => s.closed && !s.mounted
    case Opening => s.closed && s.mounted
    case Closing => !s.closed && s.mounted
    case Draining(next) => s.closed && s.mounted && next <= SLOTS
    case Emptying => s.closed && !s.mounted
  }

  predicate Inv(s: State) {
    CountsOk(s) && Excludes(s) && ChangeOk(s)
  }

  lemma Counting(s: State, t: nat, d: int, s': State)
    requires CountsOk(s) && s'.slots == Add(s, t, d).slots
    requires d == 1 ==> t !in s.pc && s'.pc.Keys == s.pc.Keys + {t}
    requires d == -1 ==> t in s.pc && s'.pc.Keys == s.pc.Keys - {t}
    requires d == 1 || d == -1
    ensures CountsOk(s')
  {
    forall i: nat | i < SLOTS ensures s'.slots[i] == |Here(s', i)| {
      if i != SlotOf(t) {
        assert Here(s', i) == Here(s, i);
      } else if d == 1 {
        assert Here(s', i) == Here(s, i) + {t};
      } else {
        assert Here(s', i) == Here(s, i) - {t};
      }
    }
  }

  lemma CallKeeps(s: State, t: nat, s': State)
    requires Inv(s) && (Enter(s, t, s') || Look(s, t, s') || Leave(s, t, s'))
    ensures Inv(s')
  {
    if Enter(s, t, s') {
      Counting(s, t, 1, s');
    } else if Leave(s, t, s') {
      Counting(s, t, -1, s');
    } else {
      forall i: nat | i < SLOTS ensures Here(s', i) == Here(s, i) {
      }
    }
  }

  /** A slot that reads zero holds no call. */
  lemma DrainKeeps(s: State, s': State)
    requires Inv(s) && Drain(s, s')
    ensures Inv(s')
  {
    var k := s.change.next;
    forall i: nat | i < SLOTS ensures Here(s', i) == Here(s, i) {
    }
    forall t | t in s'.pc && s'.pc[t] == Inside ensures Unseen(s') <= SlotOf(t) {
      assert t in Here(s, SlotOf(t));
    }
  }

  lemma ChangeKeeps(s: State, works: bool, s': State)
    requires Inv(s) && (Mount(s, works, s') || Open(s, s') || Unmount(s, s') || Take(s, s'))
    ensures Inv(s')
  {
    forall i: nat | i < SLOTS ensures Here(s', i) == Here(s, i) {
    }
  }

  lemma NextKeeps(s: State, s': State)
    requires Inv(s) && Next(s, s')
    ensures Inv(s')
  {
    if t :| Enter(s, t, s') || Look(s, t, s') || Leave(s, t, s') {
      CallKeeps(s, t, s');
    } else if works :| Mount(s, works, s') {
      ChangeKeeps(s, works, s');
    } else if Drain(s, s') {
      DrainKeeps(s, s');
    } else {
      ChangeKeeps(s, true, s');
    }
  }

  lemma {:induction false} RunKeeps(states: seq<State>, i: nat)
    requires IsRun(states) && i < |states|
    ensures Inv(states[i])
  {
    if i == 0 {
      var s := states[0];
      forall k: nat | k < SLOTS ensures s.slots[k] == |Here(s, k)| {
        assert Here(s, k) == {};
      }
    } else {
      RunKeeps(states, i - 1);
      assert StepAt(states, i - 1);
      NextKeeps(states[i - 1], states[i]);
    }
  }

  /** A call that is inside has a file system to work on, and nobody is changing which. */
  lemma InsideIsMounted(states: seq<State>, i: nat, t: nat)
    requires IsRun(states) && i < |states| && At(states[i], t, Inside)
    ensures states[i].mounted && !states[i].change.Mounting? && !states[i].change.Opening?
            && !states[i].change.Emptying?
    ensures states[i].change != Draining(SLOTS)
  {
    RunKeeps(states, i);
  }

  /** From close_and_drain's return until the gate opens, no call is inside and none gets in. */
  lemma {:induction false} DrainedExcludes(states: seq<State>, i: nat, k: nat, t: nat)
    requires IsRun(states) && i <= k < |states| && states[i].change == Draining(SLOTS)
    requires forall j: nat :: i <= j < k ==> !OpensAt(states, j)
    ensures states[k].closed && !At(states[k], t, Inside)
  {
    ClosedSince(states, i, k);
    RunKeeps(states, k);
  }

  lemma {:induction false} ClosedSince(states: seq<State>, i: nat, k: nat)
    requires IsRun(states) && i <= k < |states| && states[i].change == Draining(SLOTS)
    requires forall j: nat :: i <= j < k ==> !OpensAt(states, j)
    ensures Shut(states[k])
  {
    if i == k {
      RunKeeps(states, k);
    } else {
      ClosedSince(states, i, k - 1);
      RunKeeps(states, k - 1);
      assert StepAt(states, k - 1) && !OpensAt(states, k - 1);
      StaysShut(states[k - 1], states[k]);
    }
  }

  predicate Shut(s: State) {
    s.closed && Unseen(s) == SLOTS && s.change != Closing
  }

  lemma StaysShut(s: State, s': State)
    requires Inv(s) && Shut(s) && Next(s, s') && !Open(s, s')
    ensures Shut(s')
  {
  }

  /** Unmount waits for calls and for nothing else: with none counted, every look finds zero. */
  lemma DrainAdvances(states: seq<State>, i: nat, s': State)
    requires IsRun(states) && i < |states| && Drain(states[i], s')
    ensures s'.change == Draining(states[i].change.next + 1) <==>
              forall t :: t in states[i].pc ==> SlotOf(t) != states[i].change.next
  {
    RunKeeps(states, i);
    var s := states[i];
    var k := s.change.next;
    if t :| t in s.pc && SlotOf(t) == k {
      assert t in Here(s, k);
    } else {
      assert Here(s, k) == {};
    }
  }
}
