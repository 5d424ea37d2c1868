/** The timers of a manager as a state machine over a clock that never goes back. The pending timers are a
    set; what orders it in the source is the pair of deadline and address. Deadlines are 64-bit sums. */
module TimerRuns {

  const UINT64_RANGE: nat := 0x1_0000_0000_0000_0000

  /** The sum of two words. */
  function Sum64(a: nat, b: nat): nat {
    (a + b) % UINT64_RANGE
  }

  /** A pending timer: its address, period, deadline, whether it recurs, and its callback. */
  datatype Entry = Entry(addr: nat, ms: nat, next: nat, recurring: bool, cb: int)

  /** The order of the sorted set. */
  predicate Before(next: nat, addr: nat, next2: nat, addr2: nat) {
    next < next2 || (next == next2 && addr < addr2)
  }

  predicate First(e: Entry, es: set<Entry>) {
    forall f <- es :: f != e ==> Before(e.next, e.addr, f.next, f.addr)
  }

  /** The deadline that a poll found: the earliest pending one, if any. */
  datatype Deadline = Never | At(t: nat)

  datatype Timers = Timers(entries: set<Entry>, tickled: bool, answered: Deadline, clock: nat)

  const INITIAL := Timers({}, false, Never, 0)

  // ---------------------------------------------------------------- the operations

  /** `addTimer` under the lock: a timer that comes first while no wake-up is under way asks for one. */
  function Insert(s: Timers, e: Entry): Timers {
    s.(entries := s.entries + {e}, tickled := s.tickled || First(e, s.entries + {e}))
  }

  /** The timer was made, and its deadline set, at `made`, before the lock was taken. */
  function Add(s: Timers, addr: nat, ms: nat, recurring: bool, cb: int, made: nat): Timers {
    Insert(s, Entry(addr, ms, Sum64(made, ms), recurring, cb))
  }

  function Remove(s: Timers, e: Entry): Timers {
    s.(entries := s.entries - {e})
  }

  /** Refreshing puts the timer back without asking for a wake-up. */
  function Refresh(s: Timers, e: Entry, now: nat): Timers {
    s.(entries := s.entries - {e} + {e.(next := Sum64(now, e.ms))})
  }

  function Difference64(a: nat, b: nat): nat
    requires a < UINT64_RANGE && b < UINT64_RANGE
  {
    if a >= b then a - b else a + UINT64_RANGE - b
  }

  function ResetStart(e: Entry, fromNow: bool, now: nat): nat
    requires e.next < UINT64_RANGE && e.ms < UINT64_RANGE
  {
    if fromNow then now else Difference64(e.next, e.ms)
  }

  function Reset(s: Timers, e: Entry, ms: nat, fromNow: bool, now: nat): Timers
    requires e.next < UINT64_RANGE && e.ms < UINT64_RANGE
  {
    if ms == e.ms && !fromNow then s
    else Insert(Remove(s, e), e.(ms := ms, next := Sum64(ResetStart(e, fromNow, now), ms)))
  }

  ghost predicate IsEarliest(d: Deadline, es: set<Entry>) {
    match d
    case Never => es == {}
    case At(t) => (exists e <- es :: e.next == t) && forall e <- es :: t <= e.next
  }

  /** Polling answers the earliest deadline and ends the wake-up. */
  function Poll(s: Timers, d: Deadline): Timers {
    s.(tickled := false, answered := d)
  }

  /** The timers that come before the probe, a timer at `now` and address `probe`, have expired. */
  predicate Expired(e: Entry, now: nat, probe: nat) {
    Before(e.next, e.addr, now, probe)
  }

  function Rekeyed(e: Entry, now: nat): Entry {
    e.(next := Sum64(now, e.ms))
  }

  function ExpireEntries(es: set<Entry>, now: nat, probe: nat): set<Entry> {
    (set e <- es | !Expired(e, now, probe)) + (set e <- es | Expired(e, now, probe) && e.recurring :: Rekeyed(e, now))
  }

  function Expire(s: Timers, now: nat, probe: nat): Timers {
    s.(entries := ExpireEntries(s.entries, now, probe))
  }

  // ---------------------------------------------------------------- what they do to the set

  /** A timer that is put in asks for a wake-up exactly if none is under way and no other comes before it: none has an
      earlier deadline, or the same and a lower address. */
  lemma InsertExactly(s: Timers, e: Entry)
    ensures var t := Insert(s, e);
            && t == s.(entries := s.entries + {e}, tickled := t.tickled)
            && (t.tickled <==> s.tickled ||
                               !exists f <- s.entries :: f != e && (f.next < e.next || (f.next == e.next && f.addr <= e.addr)))
  {
    var t := Insert(s, e);
    if !s.tickled && t.tickled {
      forall f | f in s.entries && f != e ensures !(f.next < e.next || (f.next == e.next && f.addr <= e.addr)) {
        assert f in s.entries + {e};
      }
    }
  }

  /** The deadline of a new timer is its period after it was made. */
  lemma AddExactly(s: Timers, addr: nat, ms: nat, recurring: bool, cb: int, made: nat)
    ensures Add(s, addr, ms, recurring, cb, made) ==
            Insert(s, Entry(addr, ms, (made + ms) % 0x1_0000_0000_0000_0000, recurring, cb))
  {}

  /** A refreshed timer is due its period from now; one that is reset, its new period from now or from the time at which
      its old one began; and resetting may ask for a wake-up. */
  lemma RekeyExactly(s: Timers, e: Entry, ms: nat, fromNow: bool, now: nat)
    requires e.next < UINT64_RANGE && e.ms < UINT64_RANGE
    ensures Refresh(s, e, now) == s.(entries := s.entries - {e} + {e.(next := (now + e.ms) % 0x1_0000_0000_0000_0000)})
    ensures var start := if fromNow then now else (e.next - e.ms) % 0x1_0000_0000_0000_0000;
            Reset(s, e, ms, fromNow, now) ==
            if ms != e.ms || fromNow
            then Insert(s.(entries := s.entries - {e}), e.(ms := ms, next := (start + ms) % 0x1_0000_0000_0000_0000)) else s
  {}

  /** After an expiry those timers are pending that were and were due later (or at `now` with an address above the
      probe), and those recurring ones that were due, now due their period from `now`. */
  lemma ExpireExactly(s: Timers, now: nat, probe: nat, f: Entry)
    ensures var t := Expire(s, now, probe);
            && t == s.(entries := t.entries)
            && (f in t.entries <==>
                (f in s.entries && now <= f.next && (now == f.next ==> probe <= f.addr)) ||
                exists e <- s.entries :: && e.next <= now && (e.next == now ==> e.addr < probe) && e.recurring
                                         && f == e.(next := (now + e.ms) % 0x1_0000_0000_0000_0000))
  {}

  // ---------------------------------------------------------------- no wake-up is lost

  /** The deadline was set by a sum from a time that has passed. */
  predicate Timely(e: Entry, clock: nat) {
    e.next < UINT64_RANGE && e.ms < UINT64_RANGE && Difference64(e.next, e.ms) <= clock
  }

  predicate NotAfter(d: Deadline, t: nat) {
    d.At? && d.t <= t
  }

  /** Unless a wake-up is under way, the answer last given is no later than any pending deadline. */
  ghost predicate Covered(s: Timers) {
    s.tickled || forall e <- s.entries :: NotAfter(s.answered, e.next)
  }

  ghost predicate Inv(s: Timers) {
    && (forall e <- s.entries :: Timely(e, s.clock))
    && (forall e, f :: e in s.entries && f in s.entries && e.addr == f.addr ==> e == f)
    && Covered(s)
  }

  datatype Op =
    | AddOp(addr: nat, ms: nat, recurring: bool, cb: int, made: nat)
    | CancelOp(e: Entry)
    | RefreshOp(e: Entry)
    | ResetOp(e: Entry, ms: nat, fromNow: bool)
    | PollOp(d: Deadline)
    | ExpireOp(now: nat, probe: nat)

  /** An operation at time `now`; the clock is read again then. */
  datatype Step = Step(op: Op, now: nat)

  /** What the caller and the clock provide: words, time that does not go back, addresses that are not shared,
      operations on pending timers, and a poll that answers the earliest deadline. */
  ghost predicate Enabled(s: Timers, step: Step) {
    && s.clock <= step.now < UINT64_RANGE
    && match step.op
       case AddOp(addr, ms, _, _, made) => ms < UINT64_RANGE && made <= step.now && forall e <- s.entries :: e.addr != addr
       case CancelOp(e) => e in s.entries
       case RefreshOp(e) => e in s.entries
       case ResetOp(e, ms, _) => e in s.entries && e.next < UINT64_RANGE && e.ms < UINT64_RANGE && ms < UINT64_RANGE
       case PollOp(d) => IsEarliest(d, s.entries)
       case ExpireOp(now, probe) => now <= step.now
  }

  /** A timer that is given a new deadline without asking for a wake-up is covered, be the sum wrapped or not. */
  predicate StaysCovered(s: Timers, e: Entry, now: nat) {
    s.tickled || now + e.ms < UINT64_RANGE || NotAfter(s.answered, now + e.ms - UINT64_RANGE)
  }

  /** The steps that lose no wake-up. */
  ghost predicate Harmless(s: Timers, step: Step) {
    match step.op
    case RefreshOp(e) => StaysCovered(s, e, step.now)
    case ExpireOp(now, probe) => forall e <- s.entries :: Expired(e, now, probe) && e.recurring ==> StaysCovered(s, e, now)
    case _ => true
  }

  /** What a caller can see to: no deadline that is refreshed, or set again at expiry, is beyond 64 bits. */
  ghost predicate NoWrap(s: Timers, step: Step) {
    match step.op
    case RefreshOp(e) => step.now + e.ms < UINT64_RANGE
    case ExpireOp(now, probe) => forall e <- s.entries :: Expired(e, now, probe) && e.recurring ==> now + e.ms < UINT64_RANGE
    case _ => true
  }

  lemma NoWrapIsHarmless(s: Timers, step: Step)
    requires NoWrap(s, step)
    ensures Harmless(s, step)
  {}

  ghost function Next(s: Timers, step: Step): Timers
    requires Enabled(s, step)
  {
    var t := s.(clock := step.now);
    match step.op
    case AddOp(addr, ms, recurring, cb, made) => Add(t, addr, ms, recurring, cb, made)
    case CancelOp(e) => Remove(t, e)
    case RefreshOp(e) => Refresh(t, e, step.now)
    case ResetOp(e, ms, fromNow) => Reset(t, e, ms, fromNow, step.now)
    case PollOp(d) => Poll(t, d)
    case ExpireOp(now, probe) => Expire(t, now, probe)
  }

  /** What a step does: the timer in question is put in, taken out or given a new deadline; polling ends the wake-up
      and remembers its answer. */
  lemma StepsAre(s: Timers, step: Step)
    requires Enabled(s, step)
    ensures var n := Next(s, step);
            && n.clock == step.now
            && match step.op
               case AddOp(addr, ms, recurring, cb, made) =>
                 n.entries == s.entries + {Entry(addr, ms, (made + ms) % 0x1_0000_0000_0000_0000, recurring, cb)} && n.answered == s.answered
               case CancelOp(e) => n == s.(entries := s.entries - {e}, clock := step.now)
               case RefreshOp(e) => n == Refresh(s, e, step.now).(clock := step.now)
               case ResetOp(e, ms, fromNow) => n == Reset(s, e, ms, fromNow, step.now).(clock := step.now)
               case PollOp(d) => n == s.(tickled := false, answered := d, clock := step.now)
               case ExpireOp(now, probe) => n == Expire(s, now, probe).(clock := step.now)
  {}

  /** Adding loses no wake-up even if the sum wraps: a timer that comes first asks for one. */
  lemma AddCovers(s: Timers, addr: nat, ms: nat, recurring: bool, cb: int, made: nat)
    requires Covered(s)
    ensures Covered(Add(s, addr, ms, recurring, cb, made))
  {}

  lemma InsertKeepsInv(s: Timers, e: Entry)
    requires Inv(s) && Timely(e, s.clock) && forall f <- s.entries :: f.addr != e.addr
    ensures Inv(Insert(s, e))
  {}

  lemma ClockKeepsInv(s: Timers, now: nat)
    requires Inv(s) && s.clock <= now
    ensures Inv(s.(clock := now))
  {}

  lemma RemoveKeepsInv(s: Timers, e: Entry)
    requires Inv(s)
    ensures Inv(Remove(s, e))
  {}

  /** What holds after every step: deadlines are sums from times that have passed, and addresses differ. */
  ghost predicate Kept(s: Timers) {
    && (forall e <- s.entries :: Timely(e, s.clock))
    && (forall e, f :: e in s.entries && f in s.entries && e.addr == f.addr ==> e == f)
  }

  lemma DifferenceOfSum(a: nat, ms: nat)
    requires a < UINT64_RANGE && ms < UINT64_RANGE
    ensures Difference64(Sum64(a, ms), ms) == a
    ensures Sum64(a, ms) == if a + ms < UINT64_RANGE then a + ms else a + ms - UINT64_RANGE
  {}

  /** A later start never makes a deadline earlier, unless the sum wraps. */
  lemma LaterStart(e: Entry, now: nat)
    requires Timely(e, now) && now < UINT64_RANGE
    ensures now + e.ms < UINT64_RANGE ==> e.next <= Sum64(now, e.ms)
    ensures Timely(e.(next := Sum64(now, e.ms)), now)
  {
    DifferenceOfSum(now, e.ms);
  }

  /** Exactly when refreshing loses no wake-up: when one is under way, when the sum does not wrap, or when the
      wrapped deadline is still no earlier than the answer. */
  lemma RefreshExact(s: Timers, e: Entry)
    requires Inv(s) && e in s.entries && s.clock < UINT64_RANGE
    ensures Kept(Refresh(s, e, s.clock)) && (Inv(Refresh(s, e, s.clock)) <==> StaysCovered(s, e, s.clock))
  {
    hide Sum64, Difference64;
    var r := e.(next := Sum64(s.clock, e.ms));
    LaterStart(e, s.clock);
    DifferenceOfSum(s.clock, e.ms);
    assert r in Refresh(s, e, s.clock).entries;
  }

  lemma PollKeepsInv(s: Timers, d: Deadline)
    requires Inv(s) && IsEarliest(d, s.entries)
    ensures Inv(Poll(s, d))
  {}

  /** Where the timers after an expiry come from. */
  lemma ExpiredFrom(s: Timers, now: nat, probe: nat, f: Entry)
    requires Kept(s) && now <= s.clock < UINT64_RANGE && f in ExpireEntries(s.entries, now, probe)
    ensures exists e <- s.entries :: e.addr == f.addr && f == (if Expired(e, now, probe) then Rekeyed(e, now) else e) &&
                                     (Expired(e, now, probe) ==> e.recurring)
    ensures Timely(f, s.clock)
  {
    if f in s.entries && !Expired(f, now, probe) {
      assert f in s.entries;
    } else {
      var e :| e in s.entries && Expired(e, now, probe) && e.recurring && f == Rekeyed(e, now);
      DifferenceOfSum(now, e.ms);
      assert e in s.entries;
    }
  }

  lemma ExpireKeeps(s: Timers, now: nat, probe: nat)
    requires Kept(s) && now <= s.clock < UINT64_RANGE
    ensures Kept(Expire(s, now, probe))
  {
    hide ExpireEntries, Timely, Rekeyed;
    forall f <- ExpireEntries(s.entries, now, probe) ensures Timely(f, s.clock) {
      ExpiredFrom(s, now, probe, f);
    }
    forall f, g | f in ExpireEntries(s.entries, now, probe) && g in ExpireEntries(s.entries, now, probe) && f.addr == g.addr ensures f == g {
      ExpiredFrom(s, now, probe, f);
      ExpiredFrom(s, now, probe, g);
    }
  }

  /** An expired timer has a deadline that has come, so that one set later covers it as well. */
  lemma RekeyedCovered(s: Timers, e: Entry, now: nat, probe: nat)
    requires Inv(s) && !s.tickled && e in s.entries && Expired(e, now, probe) && now <= s.clock < UINT64_RANGE
    ensures NotAfter(s.answered, Rekeyed(e, now).next) <==> StaysCovered(s, e, now)
  {
    DifferenceOfSum(now, e.ms);
  }

  /** Exactly when expiry loses no wake-up: the same, for every recurring timer that has expired. */
  lemma ExpireExact(s: Timers, now: nat, probe: nat)
    requires Inv(s) && now <= s.clock < UINT64_RANGE
    ensures Inv(Expire(s, now, probe)) <==> forall e <- s.entries :: Expired(e, now, probe) && e.recurring ==> StaysCovered(s, e, now)
  {
    hide Timely, Expired, Rekeyed, StaysCovered, NotAfter;
    ExpireKeeps(s, now, probe);
    var t := Expire(s, now, probe);
    if !s.tickled {
      forall e | e in s.entries && Expired(e, now, probe) && e.recurring
        ensures Rekeyed(e, now) in t.entries && (NotAfter(s.answered, Rekeyed(e, now).next) <==> StaysCovered(s, e, now))
      {
        RekeyedCovered(s, e, now, probe);
      }
    } else {
      TickledCovers(s, now, probe);
    }
  }

  lemma TickledCovers(s: Timers, now: nat, probe: nat)
    requires s.tickled
    ensures forall e <- s.entries :: StaysCovered(s, e, now)
  {}

  /** Resetting asks for a wake-up when it is needed, wrapped or not. */
  lemma ResetKeepsInv(s: Timers, e: Entry, ms: nat, fromNow: bool)
    requires Inv(s) && e in s.entries && ms < UINT64_RANGE && s.clock < UINT64_RANGE
    ensures Inv(Reset(s, e, ms, fromNow, s.clock))
  {
    if ms != e.ms || fromNow {
      DifferenceOfSum(ResetStart(e, fromNow, s.clock), ms);
      RemoveKeepsInv(s, e);
      hide Inv, Sum64, Difference64;
      InsertKeepsInv(Remove(s, e), e.(ms := ms, next := Sum64(ResetStart(e, fromNow, s.clock), ms)));
    }
  }

  /** A step keeps the invariant exactly if it is harmless. */
  lemma NextExact(s: Timers, step: Step)
    requires Inv(s) && Enabled(s, step)
    ensures Inv(Next(s, step)) <==> Harmless(s, step)
  {
    ClockKeepsInv(s, step.now);
    var t := s.(clock := step.now);
    hide Inv, Expire, Poll, Remove, Refresh, Reset, StaysCovered, Sum64, Difference64, Expired;
    match step.op {
      case AddOp(addr, ms, recurring, cb, made) =>
        DifferenceOfSum(made, ms);
        TimelyEntry(Entry(addr, ms, Sum64(made, ms), recurring, cb), made, step.now);
        InsertKeepsInv(t, Entry(addr, ms, Sum64(made, ms), recurring, cb));
      case CancelOp(e) => RemoveKeepsInv(t, e);
      case RefreshOp(e) =>
        SameCover(s, t, e, step.now);
        RefreshExact(t, e);
      case ResetOp(e, ms, fromNow) => ResetKeepsInv(t, e, ms, fromNow);
      case PollOp(d) => PollKeepsInv(t, d);
      case ExpireOp(now, probe) =>
        forall e ensures StaysCovered(s, e, now) <==> StaysCovered(t, e, now) {
          SameCover(s, t, e, now);
        }
        ExpireExact(t, now, probe);
    }
  }

  lemma TimelyEntry(e: Entry, made: nat, now: nat)
    requires e.ms < UINT64_RANGE && e.next == Sum64(made, e.ms) && Difference64(e.next, e.ms) == made <= now
    ensures Timely(e, now)
  {}

  lemma SameCover(s: Timers, t: Timers, e: Entry, now: nat)
    requires t == s.(clock := t.clock)
    ensures StaysCovered(s, e, now) <==> StaysCovered(t, e, now)
  {}

  ghost predicate IsRun(states: seq<Timers>, steps: seq<Step>) {
    && |states| == |steps| + 1 && states[0] == INITIAL
    && forall i :: 0 <= i < |steps| ==> Leads(states[i], steps[i], states[i + 1])
  }

  ghost predicate Leads(s: Timers, step: Step, t: Timers) {
    Enabled(s, step) && t == Next(s, step)
  }

  /** Over every run of harmless steps: whenever no wake-up is under way, sleeping until the deadline that was
      last answered misses no pending timer. */
  lemma {:induction false} NoWakeUpIsLost(states: seq<Timers>, steps: seq<Step>, i: nat)
    requires IsRun(states, steps) && i <= |steps|
    requires forall k :: 0 <= k < i ==> Harmless(states[k], steps[k])
    ensures Inv(states[i])
    decreases i
  {
    hide Harmless, Enabled;
    if i > 0 {
      NoWakeUpIsLost(states, steps, i - 1);
      assert Leads(states[i - 1], steps[i - 1], states[i]);
      NextExact(states[i - 1], steps[i - 1]);
    }
  }

  /** And over no other: a run misses none throughout exactly if all its steps are harmless. */
  lemma RunsExact(states: seq<Timers>, steps: seq<Step>)
    requires IsRun(states, steps)
    ensures (forall i :: 0 <= i <= |steps| ==> Inv(states[i])) <==> forall i :: 0 <= i < |steps| ==> Harmless(states[i], steps[i])
  {
    hide Inv, Harmless, Enabled;
    if forall i :: 0 <= i < |steps| ==> Harmless(states[i], steps[i]) {
      forall i | 0 <= i <= |steps| ensures Inv(states[i]) {
        NoWakeUpIsLost(states, steps, i);
      }
    } else {
      var i :| 0 <= i < |steps| && !Harmless(states[i], steps[i]);
      if Inv(states[i]) {
        assert Leads(states[i], steps[i], states[i + 1]);
        NextExact(states[i], steps[i]);
      }
    }
  }

  // ---------------------------------------------------------------- runs that lose one

  const FAR := Entry(1, UINT64_RANGE - 1, UINT64_RANGE - 1, false, 0)
  const NEAR := Entry(2, 1000, 1000, false, 0)

  /** A timer with the longest period and one due at 1000; the loop polls, and then the first is refreshed. */
  lemma WrappedRefreshLoses()
    ensures var steps := [Step(AddOp(1, UINT64_RANGE - 1, false, 0, 0), 0), Step(AddOp(2, 1000, false, 0, 0), 0),
                          Step(PollOp(At(1000)), 10), Step(RefreshOp(FAR), 10)];
            exists states :: IsRun(states, steps) && Covered(states[3]) && !Covered(states[4])
  {
    var steps := [Step(AddOp(1, UINT64_RANGE - 1, false, 0, 0), 0), Step(AddOp(2, 1000, false, 0, 0), 0),
                  Step(PollOp(At(1000)), 10), Step(RefreshOp(FAR), 10)];
    var s1 := Timers({FAR}, true, Never, 0);
    var s2 := Timers({FAR, NEAR}, true, Never, 0);
    var s3 := Timers({FAR, NEAR}, false, At(1000), 10);
    var s4 := Timers({NEAR, FAR.(next := 9)}, false, At(1000), 10);
    assert Leads(INITIAL, steps[0], s1);
    assert NEAR in s2.entries && Leads(s1, steps[1], s2) && Leads(s2, steps[2], s3);
    assert s3.entries - {FAR} == {NEAR} && Leads(s3, steps[3], s4);
    assert FAR.(next := 9) in s4.entries;
    assert IsRun([INITIAL, s1, s2, s3, s4], steps);
  }

  const HALF: nat := 0x8000_0000_0000_0000

  /** A recurring timer with a period of 2^63, set again when it expires at 2^63. */
  lemma WrappedExpiryLoses()
    ensures var steps := [Step(AddOp(1, HALF, true, 0, 0), 0), Step(PollOp(At(HALF)), 10), Step(ExpireOp(HALF, 2), HALF)];
            exists states :: IsRun(states, steps) && Covered(states[2]) && !Covered(states[3])
  {
    var steps := [Step(AddOp(1, HALF, true, 0, 0), 0), Step(PollOp(At(HALF)), 10), Step(ExpireOp(HALF, 2), HALF)];
    var e := Entry(1, HALF, HALF, true, 0);
    var s1 := Timers({e}, true, Never, 0);
    var s2 := Timers({e}, false, At(HALF), 10);
    var s3 := Timers({e.(next := 0)}, false, At(HALF), HALF);
    assert Leads(INITIAL, steps[0], s1);
    assert e in s1.entries && Leads(s1, steps[1], s2);
    assert ExpireEntries({e}, HALF, 2) == {e.(next := 0)};
    assert Leads(s2, steps[2], s3);
    assert e.(next := 0) in s3.entries;
    assert IsRun([INITIAL, s1, s2, s3], steps);
  }

  // ---------------------------------------------------------------- how long the event loop sleeps

  const UINT32_RANGE: nat := 0x1_0000_0000
  const MAX_TIMEOUT := 3000

  /** What a poll at `now` answers. */
  function Answer(d: Deadline, now: nat): nat {
    match d
    case Never => UINT64_RANGE - 1
    case At(t) => if now >= t then 0 else t - now
  }

  /** The answer is that of the earliest deadline: nothing to wait when it has come, and else the time up to it. */
  lemma AnswerExactly(d: Deadline, es: set<Entry>, now: nat)
    requires IsEarliest(d, es) && forall e <- es :: e.next < UINT64_RANGE
    ensures var a := Answer(d, now);
            && (es == {} ==> a == 0xFFFF_FFFF_FFFF_FFFF)
            && (es != {} ==> (a == 0 <==> exists e <- es :: e.next <= now))
            && (es != {} && a > 0 ==> (exists e <- es :: e.next == now + a) && forall e <- es :: now + a <= e.next)
  {
    if d.At? {
      var e :| e in es && e.next == d.t;
    }
  }

  /** The low 32 bits of a word as a signed number. */
  function LowInt(n: nat): int {
    var low := n % UINT32_RANGE;
    if 2 * low < UINT32_RANGE then low else low - UINT32_RANGE
  }

  /** The argument of epoll_wait; it sleeps without limit when that is negative. */
  function Sleep(answer: nat): int {
    if answer == UINT64_RANGE - 1 || LowInt(answer) > MAX_TIMEOUT then MAX_TIMEOUT else LowInt(answer)
  }

  /** The sleep has a limit, and none beyond the answer, exactly if there is no timer or the low half of the
      answer is below 2^31; a timer due in 25 days can be slept over. */
  lemma SleepExact(answer: nat)
    ensures 0 <= Sleep(answer) <= answer <==> answer == UINT64_RANGE - 1 || 2 * (answer % UINT32_RANGE) < UINT32_RANGE
    ensures Sleep(0x8000_0000) < 0
    ensures answer < 0x8000_0000 ==> Sleep(answer) == if answer < 3000 then answer else 3000
    ensures answer == 0xFFFF_FFFF_FFFF_FFFF ==> Sleep(answer) == 3000
  {}

  /** A loop that has polled, and for which no wake-up is under way, is awake again before any deadline that
      is still to come. */
  lemma AwakeInTime(s: Timers, now: nat, e: Entry)
    requires Inv(s) && !s.tickled && e in s.entries
    requires var a := Answer(s.answered, now); a == UINT64_RANGE - 1 || 2 * (a % UINT32_RANGE) < UINT32_RANGE
    ensures var wake := now + Sleep(Answer(s.answered, now)); now <= wake && (wake <= now || wake <= e.next)
  {
    SleepExact(Answer(s.answered, now));
  }
}
