/**
 * The sensor sampling machine of apps/suchai/src/taskSensors.c: one tick per second, its fields saved
 * after each tick in the triple-copied status variables and read back by vote when the task restarts.
 */
module SensorSampling {
  import opened Memory
  import opened Arithmetic
  import opened StatusVoting

  const PAUSE := 0                             // ACT_PAUSE
  const START := 1                             // ACT_START
  const STAND_BY := 2                          // ACT_STAND_BY
  const ACT_LAST := 3
  const PAUSED := 0                            // ST_PAUSE
  const SAMPLING := 1                          // ST_SAMPLING
  const SENSORS := 4                           // nsensors
  const FIELDS := 5

  /** dat_stmachine_t */
  datatype Machine = Machine(state: int32, action: int32, payloads: uint32, step: uint32, left: int32)

  /**
   * The task: the machine, its saved fields, and the seconds since the task started.  `hits` is which
   * copies of each saved field changed since the last save, `rounds` how often the sensors were sampled,
   * and `sent` the sensors sampling commands were sent for.
   */
  datatype State = State(m: Machine, saved: seq<Copies>, hits: seq<set<nat>>, elapsed: nat, rounds: nat, sent: seq<nat>)
  {
    predicate Shape() { |saved| == FIELDS && |hits| == FIELDS }
  }

  // ---------------------------------------------------------------- which sensors

  function Pow2(n: nat): (r: nat)
    ensures r > 0
  {
    if n == 0 then 1 else 2 * Pow2(n - 1)
  }

  /** dat_stmachine_is_sensor_active; the mask is compared as an int, so one of 2^31 or more is below any bound. */
  predicate IsActive(sensor: nat, payloads: uint32, sensors: nat) {
    Signed(payloads) < Pow2(sensors) && payloads / Pow2(sensor) % 2 == 1
  }

  /** The active ones of the first `n` sensors. */
  function Active(payloads: uint32, n: nat): seq<nat> {
    if n == 0 then [] else Active(payloads, n - 1) + if IsActive(n - 1, payloads, SENSORS) then [n - 1] else []
  }

  function Repeat(s: seq<nat>, n: nat): seq<nat> {
    if n == 0 then [] else Repeat(s, n - 1) + s
  }

  // ---------------------------------------------------------------- save and restore

  function Save(m: Machine): (r: seq<uint32>)
    ensures |r| == FIELDS
  {
    [Unsigned(m.action), Unsigned(m.state), m.step, m.payloads, Unsigned(m.left)]
  }

  function Triple(fields: seq<uint32>): (r: seq<Copies>)
    requires |fields| == FIELDS
    ensures |r| == FIELDS && forall f | 0 <= f < FIELDS :: r[f] == Copies(fields[f], fields[f], fields[f])
  {
    seq(FIELDS, f requires 0 <= f < FIELDS => Copies(fields[f], fields[f], fields[f]))
  }

  function Voted(x: Copies): uint32 { Vote(x.a, x.b, x.c) }

  /** The start of taskSensors: anything negative and the machine is set to its defaults. */
  function Restore(action: int32, state: int32, step: int32, payloads: int32, left: int32): Machine {
    if action < 0 || state < 0 || payloads < 0 || step < 0 then Machine(PAUSED, START, 0, 5, -1)
    else Machine(state, action, payloads, step, left)
  }

  function Load(saved: seq<Copies>): Machine
    requires |saved| == FIELDS
  {
    Restore(Signed(Voted(saved[0])), Signed(Voted(saved[1])), Signed(Voted(saved[2])),
            Signed(Voted(saved[3])), Signed(Voted(saved[4])))
  }

  /** The unsigned fields come back only below 2^31: above, they read as negative. */
  predicate Small(m: Machine) {
    m.action >= 0 && m.state >= 0 && m.step < 0x8000_0000 && m.payloads < 0x8000_0000
  }

  /** What a restart reads is what was saved, exactly for such machines. */
  lemma LoadSavedIff(m: Machine)
    ensures Load(Triple(Save(m))) == m <==> Small(m)
  {
  }

  // ---------------------------------------------------------------- the steps

  function Minus1(x: int32): int32 { if x == -0x8000_0000 then 0x7FFF_FFFF else x - 1 }

  /** The pending action. */
  function Act(m: Machine): Machine {
    if m.action == START then m.(state := SAMPLING, action := STAND_BY)
    else if m.action == PAUSE then m.(state := PAUSED, action := STAND_BY)
    else m
  }

  /** The loop takes the elapsed seconds modulo the step only while it samples. */
  predicate Divides(m: Machine) { Act(m).state == SAMPLING && m.left != 0 }

  /** One pass of the loop. */
  function Tick(s: State): State
    requires s.Shape() && (Divides(s.m) ==> s.m.step > 0)
  {
    var m := Act(s.m);
    if m.state == SAMPLING && m.left == 0 then
      Done(s, m.(state := PAUSED, action := STAND_BY), false)
    else if m.state == SAMPLING && s.elapsed % m.step == 0 then
      Done(s, if m.left != -1 then m.(left := Minus1(m.left)) else m, true)
    else Done(s, m, false)
  }

  /** The end of a pass: save, and count the second. */
  function Done(s: State, m: Machine, sampled: bool): State
    requires s.Shape()
  {
    State(m, Triple(Save(m)), seq(FIELDS, _ => {}), s.elapsed + 1,
          if sampled then s.rounds + 1 else s.rounds,
          if sampled then s.sent + Active(m.payloads, SENSORS) else s.sent)
  }

  /** The task starts again: the seconds start at zero, the machine is read back. */
  function Restart(s: State): State
    requires s.Shape()
  {
    s.(m := Load(s.saved), elapsed := 0)
  }

  function SetCopy(x: Copies, k: nat, v: uint32): Copies {
    if k == 0 then x.(a := v) else if k == 1 then x.(b := v) else x.(c := v)
  }

  /** One copy of a saved field changes by itself. */
  function Fault(s: State, f: nat, k: nat, v: uint32): State
    requires s.Shape() && f < FIELDS
  {
    s.(saved := s.saved[f := SetCopy(s.saved[f], k, v)], hits := s.hits[f := s.hits[f] + {k}])
  }

  datatype Event = Second | Reboot | Upset(f: nat, k: nat, v: uint32)

  predicate Possible(e: Event) {
    e.Upset? ==> e.f < FIELDS && e.k < 3
  }

  function Apply(s: State, e: Event): State
    requires s.Shape() && Possible(e) && (e.Second? && Divides(s.m) ==> s.m.step > 0)
  {
    match e
    case Second => Tick(s)
    case Reboot => Restart(s)
    case Upset(f, k, v) => Fault(s, f, k, v)
  }

  /** Between two saves at most one copy of each field changes. */
  ghost predicate FewFaults(s: State)
    requires s.Shape()
  {
    forall f | 0 <= f < FIELDS :: |s.hits[f]| <= 1
  }

  // ---------------------------------------------------------------- what every step keeps

  /** The saved fields hold the machine, up to the copies hit. */
  ghost predicate Backed(s: State) {
    s.Shape() && forall f | 0 <= f < FIELDS ::
      Intact(s.saved[f], s.hits[f], Save(s.m)[f]) && forall k | k in s.hits[f] :: k < 3
  }

  /** A machine that was started for `n` rounds when `from` was its state. */
  ghost predicate Started(from: State, n: nat, s: State) {
    Backed(s) && s.m.action == STAND_BY && s.m.step == from.m.step && s.m.payloads == from.m.payloads &&
    s.m.left >= 0 && s.rounds >= from.rounds && s.rounds - from.rounds + s.m.left == n &&
    (s.m.state == SAMPLING || (s.m.state == PAUSED && s.m.left == 0)) &&
    s.sent == from.sent + Repeat(Active(from.m.payloads, SENSORS), s.rounds - from.rounds)
  }

  /** A START for `n` rounds is pending. */
  predicate Pending(s: State, n: nat) {
    s.Shape() && s.m.action == START && s.m.left == n && 0 < s.m.step && Small(s.m)
  }

  lemma DoneBacked(s: State, m: Machine, sampled: bool)
    requires s.Shape()
    ensures Backed(Done(s, m, sampled)) && FewFaults(Done(s, m, sampled))
  {
  }

  lemma TickBacked(s: State)
    requires s.Shape() && (Divides(s.m) ==> s.m.step > 0)
    ensures Backed(Tick(s)) && FewFaults(Tick(s))
  {
    var m := Act(s.m);
    DoneBacked(s, m.(state := PAUSED, action := STAND_BY), false);
    DoneBacked(s, if m.left != -1 then m.(left := Minus1(m.left)) else m, true);
    DoneBacked(s, m, false);
  }

  lemma RepeatNext(base: seq<nat>, s: seq<nat>, n: nat)
    ensures base + Repeat(s, n + 1) == base + Repeat(s, n) + s
  {
  }

  /** The tick that applies the START. */
  lemma TickStarts(s: State, n: nat)
    requires Pending(s, n)
    ensures Started(s, n, Tick(s))
  {
    TickBacked(s);
    RepeatNext(s.sent, Active(s.m.payloads, SENSORS), 0);
    assert s.sent + Repeat(Active(s.m.payloads, SENSORS), 0) == s.sent;
  }

  lemma TickKeeps(from: State, n: nat, s: State)
    requires Started(from, n, s) && s.m.step > 0
    ensures Started(from, n, Tick(s))
  {
    TickBacked(s);
    RepeatNext(from.sent, Active(from.m.payloads, SENSORS), s.rounds - from.rounds);
  }

  lemma VotedIs(s: State, f: nat)
    requires Backed(s) && FewFaults(s) && f < FIELDS
    ensures Voted(s.saved[f]) == Save(s.m)[f]
  {
    ToleratesIff(s.hits[f]);
  }

  /** A restart finds the machine as it was. */
  lemma RestartRestores(s: State)
    requires Backed(s) && FewFaults(s) && Small(s.m)
    ensures Restart(s) == s.(elapsed := 0)
  {
    VotedIs(s, 0);
    VotedIs(s, 1);
    VotedIs(s, 2);
    VotedIs(s, 3);
    VotedIs(s, 4);
    LoadSavedIff(s.m);
  }

  lemma FaultKeepsBacked(s: State, f: nat, k: nat, v: uint32)
    requires Backed(s) && f < FIELDS && k < 3
    ensures Backed(Fault(s, f, k, v))
  {
    var s' := Fault(s, f, k, v);
    forall j | 0 <= j < 3 && j !in s'.hits[f] ensures s'.saved[f].At(j) == Save(s.m)[f] {
      assert s.saved[f].At(j) == Save(s.m)[f];
    }
  }

  // ---------------------------------------------------------------- runs

  /** A run in which the votes always have a majority. */
  ghost predicate ValidRun(s: State, es: seq<Event>)
    decreases |es|
  {
    s.Shape() && FewFaults(s) &&
    (es == [] ||
     (Possible(es[0]) && (es[0].Second? && Divides(s.m) ==> s.m.step > 0) && ValidRun(Apply(s, es[0]), es[1..])))
  }

  ghost function Final(s: State, es: seq<Event>): State
    requires ValidRun(s, es)
    decreases |es|
  {
    if es == [] then s else Final(Apply(s, es[0]), es[1..])
  }

  function Seconds(es: seq<Event>): nat {
    if es == [] then 0 else Seconds(es[1..]) + if es[0].Second? then 1 else 0
  }

  lemma ApplyKeeps(from: State, n: nat, s: State, e: Event)
    requires Started(from, n, s) && s.m.step > 0 && Small(s.m) && FewFaults(s) && Possible(e)
    ensures Started(from, n, Apply(s, e)) && Small(Apply(s, e).m)
  {
    match e
    case Second => TickKeeps(from, n, s);
    case Reboot => RestartRestores(s);
    case Upset(f, k, v) => FaultKeepsBacked(s, f, k, v);
  }

  /** Seconds to wait before a round. */
  function Phase(elapsed: nat, step: nat): nat
    requires step > 0
  {
    if elapsed % step == 0 then 0 else step - elapsed % step
  }

  lemma PhaseNext(elapsed: nat, step: nat)
    requires step > 0
    ensures Phase(elapsed + 1, step) == if Phase(elapsed, step) == 0 then step - 1 else Phase(elapsed, step) - 1
    ensures Phase(elapsed, step) < step
  {
    var q, r := elapsed / step, elapsed % step;
    Division(elapsed, step);
    if r + 1 < step {
      DivIs(elapsed + 1, q, r + 1, step);
    } else {
      Times(q + 1, step);
      DivIs(elapsed + 1, q + 1, 0, step);
    }
  }

  /** The seconds until the machine pauses by itself. */
  function Remaining(s: State): nat
    requires s.m.step > 0 && s.m.left >= 0
  {
    if s.m.state != SAMPLING then 0
    else if s.m.left == 0 then 1
    else Phase(s.elapsed, s.m.step) + Apart(s.m.left - 1, s.m.step) + 2
  }

  /** The time `n` rounds are apart. */
  function Apart(n: nat, step: nat): nat { n * step }

  /** Every second brings the pause one second nearer. */
  lemma TickCountsDown(s: State)
    requires s.Shape() && s.m.step > 0 && s.m.left >= 0 && s.m.state == SAMPLING && s.m.action == STAND_BY
    ensures Tick(s).m.left >= 0 && Tick(s).m.step == s.m.step && Remaining(Tick(s)) == Remaining(s) - 1
  {
    PhaseNext(s.elapsed, s.m.step);
    if s.m.left > 1 { Times(s.m.left - 1, s.m.step); }
  }

  /** How far the pause is after something happened. */
  predicate CountsDown(s: State, s': State, e: Event)
    requires s.m.step > 0 && s.m.left >= 0
  {
    s'.m.step == s.m.step && s'.m.left >= 0 &&
    Remaining(s') <= (if e.Second? && Remaining(s) > 0 then Remaining(s) - 1 else Remaining(s)) &&
    (e.Second? && s.m.state == SAMPLING ==> Remaining(s') == Remaining(s) - 1)
  }

  lemma SecondCountsDown(s: State)
    requires s.Shape() && s.m.step > 0 && s.m.left >= 0 && s.m.action == STAND_BY
    ensures CountsDown(s, Tick(s), Second)
  {
    if s.m.state == SAMPLING { TickCountsDown(s); }
  }

  lemma RebootCountsDown(s: State)
    requires Backed(s) && FewFaults(s) && Small(s.m) && s.m.step > 0 && s.m.left >= 0
    ensures CountsDown(s, Restart(s), Reboot)
  {
    RestartRestores(s);
  }

  /** Nothing that can happen moves it away. */
  lemma ApplyCountsDown(s: State, e: Event)
    requires Backed(s) && s.m.action == STAND_BY && s.m.left >= 0 && s.m.step > 0 && Small(s.m) && FewFaults(s)
    requires Possible(e)
    ensures CountsDown(s, Apply(s, e), e)
  {
    match e
    case Second => SecondCountsDown(s);
    case Reboot => RebootCountsDown(s);
    case Upset(_, _, _) =>
  }

  lemma {:induction false} RunKeeps(from: State, n: nat, s: State, es: seq<Event>)
    requires Started(from, n, s) && s.m.step > 0 && Small(s.m) && ValidRun(s, es)
    ensures Started(from, n, Final(s, es)) && Final(s, es).m.step == s.m.step
    ensures Remaining(Final(s, es)) <= if Remaining(s) >= Seconds(es) then Remaining(s) - Seconds(es) else 0
    decreases |es|
  {
    if es != [] {
      ApplyCountsDown(s, es[0]);
      ApplyKeeps(from, n, s, es[0]);
      RunKeeps(from, n, Apply(s, es[0]), es[1..]);
    }
  }

  lemma StartRemaining(s: State, n: nat)
    requires Pending(s, n)
    ensures Tick(s).m.left >= 0 && Tick(s).m.step == s.m.step && Remaining(Tick(s)) <= n * s.m.step
  {
    var sampling := s.(m := s.m.(state := SAMPLING, action := STAND_BY));
    assert Tick(s) == Tick(sampling);
    TickCountsDown(sampling);
    PhaseNext(s.elapsed, s.m.step);
    if n > 0 { Times(n, s.m.step); }
  }

  /**
   * Exactly `n` rounds.  Once a tick has applied a START for `n` rounds, and whatever seconds, restarts and
   * single upsets follow: never more than `n` rounds are taken, what remains is always counted, and after
   * `n * step + 1` seconds in all the machine is paused with exactly `n` rounds taken, each of which sent
   * one command for each active sensor.
   */
  lemma ExactlyNRounds(s: State, n: nat, es: seq<Event>)
    requires Pending(s, n) && ValidRun(Tick(s), es)
    ensures var end := Final(Tick(s), es);
      end.rounds - s.rounds + end.m.left == n && 0 <= end.m.left <= n &&
      end.sent == s.sent + Repeat(Active(s.m.payloads, SENSORS), end.rounds - s.rounds) &&
      (end.m.state == PAUSED ==> end.rounds == s.rounds + n) &&
      (1 + Seconds(es) >= n * s.m.step + 1 ==> end.m.state == PAUSED)
  {
    TickStarts(s, n);
    RunKeeps(s, n, Tick(s), es);
    StartRemaining(s, n);
  }

  /** Seconds only. */
  ghost function Ticks(s: State, k: nat): (r: State)
    requires s.Shape() && s.m.step > 0
    ensures r.Shape() && r.m.step == s.m.step
  {
    if k == 0 then s else Tick(Ticks(s, k - 1))
  }

  /** Without restarts the pause comes exactly when it is due. */
  lemma {:induction false} PausesExactly(s: State, k: nat)
    requires s.Shape() && s.m.step > 0 && s.m.left >= 0 && s.m.state == SAMPLING && s.m.action == STAND_BY
    ensures Ticks(s, k).m.state == SAMPLING <==> k < Remaining(s)
    ensures k < Remaining(s) ==> Ticks(s, k).m.left >= 0 && Remaining(Ticks(s, k)) == Remaining(s) - k
    ensures Ticks(s, k).m.action == STAND_BY
  {
    if k > 0 {
      PausesExactly(s, k - 1);
      if k - 1 < Remaining(s) { TickCountsDown(Ticks(s, k - 1)); }
    }
  }

  /** dat_set_stmachine_state */
  function SetState(m: Machine, action: int32, step: uint32, n: int32): (Machine, bool) {
    if 0 <= action < ACT_LAST && step > 0 && n > -2 then (m.(action := action, step := step, left := n), true)
    else (m, false)
  }

  /** A command that no tick has applied yet is not saved: a restart forgets it. */
  lemma UnappliedIsLost(s: State, action: int32, step: uint32, n: int32)
    requires Backed(s) && FewFaults(s) && Small(s.m)
    ensures Restart(s.(m := SetState(s.m, action, step, n).0)) == s.(elapsed := 0)
  {
    RestartRestores(s);
  }

  class SensorTask {
    var m: Machine
    var saved: seq<Copies>
    ghost var hits: seq<set<nat>>
    var elapsed: nat
    ghost var rounds: nat
    var sent: seq<nat>

    ghost function Abs(): State
      reads this
    {
      State(m, saved, hits, elapsed, rounds, sent)
    }

    /** The start of the task, from what is saved. */
    constructor (saved: seq<Copies>, ghost hits: seq<set<nat>>)
      requires |saved| == FIELDS && |hits| == FIELDS
      ensures Abs() == State(Load(saved), saved, hits, 0, 0, [])
    {
      m := Load(saved);
      this.saved, this.hits := saved, hits;
      elapsed, rounds, sent := 0, 0, [];
    }

    method SetMachine(action: int32, step: uint32, n: int32) returns (ok: bool)
      modifies this
      ensures (m, ok) == SetState(old(m), action, step, n) && Abs() == old(Abs()).(m := m)
    {
      ok := action >= 0 && action < ACT_LAST && step > 0 && n > -2;
      if ok {
        m := m.(action := action, step := step, left := n);
      }
    }

    method SampleSensors()
      modifies this`sent
      ensures sent == old(sent) + Active(m.payloads, SENSORS)
    {
      ghost var before := sent;
      for i := 0 to SENSORS
        invariant sent == before + Active(m.payloads, i)
      {
        if IsActive(i, m.payloads, SENSORS) {
          sent := sent + [i];
        }
      }
    }

    method OneSecond()
      requires Abs().Shape() && (Divides(m) ==> m.step > 0)
      modifies this
      ensures Abs() == Tick(old(Abs()))
    {
      if m.action != STAND_BY {
        if m.action == START {
          m := m.(state := SAMPLING, action := STAND_BY);
        } else if m.action == PAUSE {
          m := m.(state := PAUSED, action := STAND_BY);
        }
      }
      if m.state == SAMPLING {
        if m.left == 0 {
          m := m.(state := PAUSED, action := STAND_BY);
        } else if elapsed % m.step == 0 {
          SampleSensors();
          rounds := rounds + 1;
          if m.left != -1 {
            m := m.(left := Minus1(m.left));
          }
        }
      }
      saved, hits := Triple(Save(m)), seq(FIELDS, _ => {});
      elapsed := elapsed + 1;
    }
  }
}
