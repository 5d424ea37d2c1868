/** Timers and their manager: a set kept in the order of deadline and address, whose elements have their
    deadlines changed only while they are out of it. Each method is proved against TimerRuns. */
module TimerManagement {
  import opened TimerRuns
  import opened Wrappers

  class Timer {
    const addr: nat
    const recurring: bool
    var ms: nat
    var next: nat
    var cb: Option<int>

    function Value(): Entry
      reads this
    {
      Entry(addr, ms, next, recurring, if cb.Some? then cb.value else 0)
    }

    constructor (addr: nat, ms: nat, cb: int, recurring: bool, now: nat)
      ensures Value() == Entry(addr, ms, Sum64(now, ms), recurring, cb) && this.cb == Some(cb) && this.recurring == recurring
    {
      this.addr, this.recurring, this.ms, this.cb := addr, recurring, ms, Some(cb);
      next := Sum64(now, ms);
    }
  }

  ghost function Values(ts: seq<Timer>): (es: seq<Entry>)
    reads ts
    ensures |es| == |ts| && forall i :: 0 <= i < |ts| ==> es[i] == ts[i].Value()
  {
    if |ts| == 0 then [] else Values(ts[..|ts| - 1]) + [ts[|ts| - 1].Value()]
  }

  /** Strictly sorted by deadline, then address. */
  ghost predicate Sorted(es: seq<Entry>) {
    forall i, j :: 0 <= i < j < |es| ==> Before(es[i].next, es[i].addr, es[j].next, es[j].addr)
  }

  ghost function SetOf(es: seq<Entry>): set<Entry> {
    set e <- es
  }

  class TimerManager {
    var timers: seq<Timer>
    var tickled: bool
    var wakeUps: nat                  // calls to onTimerInsertAtFront
    ghost var answered: Deadline      // what the last poll found
    ghost var clock: nat
    ghost var known: set<Timer>       // the timers of this manager, pending or not

    ghost predicate Valid()
      reads this, known
    {
      && (forall i :: 0 <= i < |timers| ==> timers[i] in known && Armed(timers[i]))
      && (forall t, u :: t in known && u in known && t.addr == u.addr ==> t == u)
      && Sorted(Values(timers))
    }

    /** A timer that may be pending: it has its callback, and its words are words. */
    ghost predicate Armed(t: Timer)
      reads t
    {
      t.cb.Some? && t.next < UINT64_RANGE && t.ms < UINT64_RANGE
    }

    ghost function Pending(): set<Entry>
      reads this, timers
    {
      SetOf(Values(timers))
    }

    ghost function View(): Timers
      reads this, timers
    {
      Timers(Pending(), tickled, answered, clock)
    }

    constructor ()
      ensures Valid() && View() == INITIAL && known == {}
    {
      timers, tickled, wakeUps, answered, clock, known := [], false, 0, Never, 0, {};
    }

    /** Binary search, as the comparator guides it: how many timers come before the given key. */
    method Rank(next: nat, addr: nat) returns (i: nat)
      requires Sorted(Values(timers))
      ensures i <= |timers|
      ensures forall j :: 0 <= j < |timers| ==> (j < i <==> Before(timers[j].next, timers[j].addr, next, addr))
    {
      var lo, hi := 0, |timers|;
      ghost var es := Values(timers);
      while lo < hi
        invariant 0 <= lo <= hi <= |timers|
        invariant forall j :: 0 <= j < lo ==> Before(es[j].next, es[j].addr, next, addr)
        invariant forall j :: hi <= j < |timers| ==> !Before(es[j].next, es[j].addr, next, addr)
      {
        var mid := (lo + hi) / 2;
        assert es[mid] == timers[mid].Value();
        if Before(timers[mid].next, timers[mid].addr, next, addr) {
          lo := mid + 1;
        } else {
          hi := mid;
        }
      }
      i := lo;
      forall j | 0 <= j < |timers| ensures j < i <==> Before(timers[j].next, timers[j].addr, next, addr) {
        assert es[j] == timers[j].Value();
      }
    }

    /** Finds a timer of this manager by its key. */
    method Find(t: Timer) returns (i: nat, found: bool)
      requires Valid() && t in known
      ensures found <==> t in timers
      ensures found ==> i < |timers| && timers[i] == t
    {
      i := Rank(t.next, t.addr);
      found := i < |timers| && timers[i] == t;
      if t in timers {
        var k :| 0 <= k < |timers| && timers[k] == t;
        assert Values(timers)[k] == t.Value();
        assert k >= i && Values(timers)[i] == timers[i].Value();
      }
    }

    /** Takes the timer at index `i` out. */
    method Erase(i: nat)
      requires Valid() && i < |timers|
      modifies this`timers
      ensures Valid() && forall t :: t in timers <==> t in old(timers) && t != old(timers[i])
      ensures Pending() == old(Pending()) - {old(timers[i]).Value()}
    {
      hide SetOf, Sorted, Values;
      ghost var es, t := Values(timers), timers[i];
      ErasedSet(es, i);
      timers := timers[..i] + timers[i + 1..];
      assert Values(timers) == es[..i] + es[i + 1..];
      forall j | 0 <= j < |timers| ensures timers[j] != t {
        assert Values(timers)[j] in Values(timers);
      }
    }

    /** Puts a timer of this manager in at its place; tells whether that is the first. */
    method Place(t: Timer) returns (first: bool)
      requires Valid() && t in known && t !in timers && Armed(t)
      modifies this`timers
      ensures Valid() && Pending() == old(Pending()) + {t.Value()}
      ensures first <==> First(t.Value(), Pending())
      ensures forall u :: u in timers <==> u in old(timers) || u == t
    {
      hide SetOf, Sorted, First, Values, Before;
      var i := Rank(t.next, t.addr);
      ghost var es := Values(timers);
      first := i == 0;
      timers := timers[..i] + [t] + timers[i..];
      assert Values(timers) == es[..i] + [t.Value()] + es[i..];
      forall j | 0 <= j < |es| ensures es[j].addr != t.addr {
        assert old(timers)[j] in old(timers);
      }
      PlacedSet(es, t.Value(), i);
    }

    /** `addTimer` under the lock: asks for a wake-up when the timer comes first and none is under way. */
    method Insert(t: Timer)
      requires Valid() && t in known && t !in timers && Armed(t)
      modifies this`timers, this`tickled, this`wakeUps
      ensures Valid() && View() == TimerRuns.Insert(old(View()), t.Value())
      ensures wakeUps == old(wakeUps) + if tickled && !old(tickled) then 1 else 0
      ensures forall u :: u in timers <==> u in old(timers) || u == t
    {
      hide SetOf, Sorted, Values, First;
      var first := Place(t);
      var atFront := first && !tickled;
      if atFront {
        tickled := true;
        wakeUps := wakeUps + 1;
      }
    }

    method AddTimer(addr: nat, ms: nat, cb: int, recurring: bool, made: nat, ghost now: nat) returns (t: Timer)
      requires Valid() && ms < UINT64_RANGE && made <= now && clock <= now && forall u <- known :: u.addr != addr
      modifies this
      ensures Valid() && fresh(t) && known == old(known) + {t} && t in timers
      ensures t.cb == Some(cb) && t.recurring == recurring && t.Value() == Entry(addr, ms, Sum64(made, ms), recurring, cb)
      ensures View() == Add(old(View()).(clock := now), addr, ms, recurring, cb, made)
      ensures t.addr == addr && t.ms == ms && t.next == (made + ms) % 0x1_0000_0000_0000_0000
      ensures wakeUps == old(wakeUps) + if tickled && !old(tickled) then 1 else 0
    {
      hide SetOf, Sorted, Values, First, TimerRuns.Insert;
      clock := now;
      t := new Timer(addr, ms, cb, recurring, made);
      known := known + {t};
      Insert(t);
    }

    /** Cancels a pending timer; false for one that was cancelled before. */
    method Cancel(t: Timer, ghost now: nat) returns (r: bool)
      requires Valid() && t in known && clock <= now && (t.cb.Some? ==> t in timers)
      modifies this`timers, this`clock, t`cb
      ensures Valid() && r == old(t.cb.Some?) && t.cb.None? && t !in timers
      ensures View() == if r then Remove(old(View()).(clock := now), old(t.Value())) else old(View()).(clock := now)
      ensures forall u :: u in timers <==> u in old(timers) && u != t
    {
      hide SetOf, Sorted, Values;
      clock := now;
      if t.cb.Some? {
        var i, found := Find(t);
        Erase(i);
        t.cb := None;
        return true;
      }
      return false;
    }

    /** Starts the period of a pending timer again; false when it is not pending. */
    method Refresh(t: Timer, now: nat) returns (r: bool)
      requires Valid() && t in known && clock <= now
      modifies this`timers, this`clock, t`next
      ensures Valid() && r == (t in old(timers)) && (forall u :: u in timers <==> u in old(timers))
      ensures View() == if r then TimerRuns.Refresh(old(View()).(clock := now), old(t.Value()), now)
                        else old(View()).(clock := now)
    {
      hide SetOf, Sorted, Values, First;
      clock := now;
      if t.cb.Some? {
        var i, found := Find(t);
        if !found {
          return false;
        }
        Erase(i);
        t.next := Sum64(now, t.ms);
        var first := Place(t);
        return true;
      }
      return false;
    }

    /** Gives a pending timer a new period, from now or from the start of the old one. */
    method Reset(t: Timer, ms: nat, fromNow: bool, now: nat) returns (r: bool)
      requires Valid() && t in known && clock <= now && ms < UINT64_RANGE
      modifies this`timers, this`tickled, this`wakeUps, this`clock, t`next, t`ms
      ensures Valid() && r == ((ms == old(t.ms) && !fromNow) || t in old(timers)) && (forall u :: u in timers <==> u in old(timers))
      ensures t in old(timers) ==> Armed(t) && old(Armed(t))
      ensures t in old(timers) ==> View() == TimerRuns.Reset(old(View()).(clock := now), old(t.Value()), ms, fromNow, now)
      ensures t !in old(timers) ==> View() == old(View()).(clock := now)
    {
      hide SetOf, Sorted, Values, First, TimerRuns.Insert;
      clock := now;
      if ms == t.ms && !fromNow {
        return true;
      }
      if t.cb.Some? {
        var i, found := Find(t);
        if !found {
          return false;
        }
        Erase(i);
        var start;
        if fromNow {
          start := now;
        } else {
          start := Difference64(t.next, t.ms);
        }
        t.ms := ms;
        t.next := Sum64(start, t.ms);
        Insert(t);
        return true;
      }
      return false;
    }

    /** How long to sleep: nothing for a deadline that has come, and all ones when nothing is pending. Ends
        the wake-up that is under way. */
    method GetNextTimer(now: nat) returns (r: nat)
      requires Valid() && clock <= now
      modifies this`tickled, this`answered, this`clock
      ensures Valid() && IsEarliest(answered, Pending())
      ensures View() == Poll(old(View()).(clock := now), answered)
      ensures r == Answer(answered, now)
      ensures timers == old(timers) && !tickled
      ensures |timers| == 0 ==> r == 0xFFFF_FFFF_FFFF_FFFF
      ensures |timers| > 0 ==> (r == 0 <==> exists i :: 0 <= i < |timers| && timers[i].next <= now)
      ensures |timers| > 0 && r > 0 ==>
                && (exists i :: 0 <= i < |timers| && timers[i].next == now + r)
                && (forall i :: 0 <= i < |timers| ==> now + r <= timers[i].next)
    {
      hide SetOf, Values, Sorted, IsEarliest;
      clock := now;
      tickled := false;
      if |timers| == 0 {
        answered := Never;
        NoneIsEarliest(Values(timers));
        return UINT64_RANGE - 1;
      }
      var first := timers[0];
      answered := At(first.next);
      FirstIsNext();
      FirstIsEarliest(Values(timers));
      if now >= first.next {
        return 0;
      }
      return first.next - now;
    }

    /** The timers are in the order of their deadlines; those of one deadline are in the order of their addresses. */
    lemma InTheirOrder()
      requires Valid()
      ensures forall i, j :: 0 <= i < j < |timers| ==>
                timers[i].next < timers[j].next || (timers[i].next == timers[j].next && timers[i].addr < timers[j].addr)
    {
      ghost var es := Values(timers);
      forall i, j | 0 <= i < j < |timers|
        ensures timers[i].next < timers[j].next || (timers[i].next == timers[j].next && timers[i].addr < timers[j].addr)
      {
        assert Before(es[i].next, es[i].addr, es[j].next, es[j].addr);
      }
    }

    lemma FirstIsNext()
      requires Valid() && |timers| > 0
      ensures forall i :: 0 <= i < |timers| ==> timers[0].next <= timers[i].next
    {
      InTheirOrder();
    }

    lemma AddressesDiffer()
      requires Valid()
      ensures Distinct(Values(timers))
    {}

    /** Takes a pending timer out, and puts it back with a new deadline if it recurs. */
    method TakeOut(timer: Timer, now: nat)
      requires Valid() && timer in known && timer in timers
      modifies this`timers, timer`next
      ensures Valid() && Pending() == old(Pending()) - {old(timer.Value())} +
                                      if timer.recurring then {Rekeyed(old(timer.Value()), now)} else {}
      ensures forall t :: t in timers <==> t in old(timers) && (t != timer || timer.recurring)
    {
      hide SetOf, Sorted, Values;
      var i, found := Find(timer);
      Erase(i);
      if timer.recurring {
        timer.next := Sum64(now, timer.ms);
        var first := Place(timer);
      }
    }

    /** The loop over the timers that expired, the first `n` in order. */
    method TakeOutFirst(n: nat, now: nat) returns (cbs: seq<int>)
      requires Valid() && n <= |timers|
      modifies this`timers, timers
      ensures Valid() && (forall t :: t in known ==> t.cb == old(t.cb) && t.ms == old(t.ms))
      ensures cbs == Callbacks(old(Values(timers))[..n]) && Pending() == HalfExpired(old(Values(timers)), n, now)
      ensures forall i :: 0 <= i < |old(timers)| ==> (old(timers)[i] in timers <==> i >= n || old(timers)[i].recurring)
    {
      hide SetOf, Sorted, Values, Callbacks, HalfExpired, Distinct;
      cbs := [];
      ghost var es, before := Values(timers), timers;
      var expired := timers[..n];
      AddressesDiffer();
      NothingDone(es, now);
      for j := 0 to |expired|
        invariant Valid() && cbs == Callbacks(es[..j]) && Pending() == HalfExpired(es, j, now)
        invariant forall t :: t in timers ==> t in before
        invariant forall i :: 0 <= i < j ==> (before[i] in timers <==> before[i].recurring)
        invariant forall i :: 0 <= i < |before| ==> before[i] in known && (i >= j ==> before[i] in timers && before[i].Value() == es[i])
        invariant forall t :: t in known ==> t.cb == old(t.cb) && t.ms == old(t.ms)
      {
        var timer := expired[j];
        assert timer == before[j];
        OthersDiffer(before, es, j);
        CallbacksNext(es, j);
        cbs := cbs + [timer.cb.value];
        TakeOut(timer, now);
        HalfExpiredNext(es, j, now);
      }
    }

    /** Takes the expired timers out, puts the recurring ones back with a new deadline, and gives the callbacks
        in the order of the deadlines. `now` was read before the lock was taken; `probe` is the address of the
        timer made to compare with. */
    method ListExpiredCb(now: nat, probe: nat, ghost at: nat) returns (cbs: seq<int>, ghost k: nat)
      requires Valid() && clock <= at && now <= at && forall t <- known :: t.addr != probe
      modifies this`timers, this`clock, timers
      ensures Valid() && (forall t :: t in known ==> t.cb == old(t.cb) && t.ms == old(t.ms))
      ensures View() == Expire(old(View()).(clock := at), now, probe)
      ensures k <= |old(timers)| && cbs == Callbacks(old(Values(timers))[..k])
      ensures forall i :: 0 <= i < |old(timers)| ==> (i < k <==> Expired(old(Values(timers))[i], now, probe))
      ensures |cbs| == k && forall i :: 0 <= i < k ==> old(timers)[i].cb == Some(cbs[i])
      ensures forall i :: 0 <= i < |old(timers)| ==>
                (i < k <==> old(timers[i].next) < now || (old(timers[i].next) == now && old(timers[i].addr) < probe))
      ensures forall i :: 0 <= i < |old(timers)| ==> (old(timers)[i] in timers <==> i >= k || old(timers)[i].recurring)
    {
      hide SetOf, Sorted, Values, Expired, Callbacks, HalfExpired;
      clock := at;
      ghost var es := Values(timers);
      if |timers| == 0 {
        NoneExpired(es, now, probe);
        return [], 0;
      }
      var n := Rank(now, probe);
      k := n;
      RankIsExpired(es, k, now, probe);
      cbs := TakeOutFirst(n, now);
      AllExpired(es, k, now, probe);
    }
  }

  /** A timer that is not recurring keeps its callback when it has fired, but it is no longer in the set: the code
      would take the end of the set out if it were cancelled then. */
  method FiredOneShot(addr: nat, ms: nat, cb: int) returns (manager: TimerManager, timer: Timer)
    requires ms < UINT64_RANGE - 1
    ensures fresh(manager) && manager.Valid() && timer in manager.known && timer.cb == Some(cb) && timer !in manager.timers
  {
    hide SetOf, Sorted, Values, Callbacks, First, ExpireEntries;
    manager := new TimerManager();
    timer := manager.AddTimer(addr, ms, cb, false, 0, 0);
    ghost var before := manager.timers;
    ghost var i :| 0 <= i < |before| && before[i] == timer;
    var cbs, k := manager.ListExpiredCb(ms + 1, addr + 1, ms + 1);
    assert i < k;
  }

  lemma OthersDiffer(ts: seq<Timer>, es: seq<Entry>, j: nat)
    requires j < |ts| == |es| && Distinct(es) && forall i :: 0 <= i < |ts| ==> es[i].addr == ts[i].addr
    ensures forall i :: 0 <= i < j ==> ts[i] != ts[j]
  {}

  function Callbacks(es: seq<Entry>): (cbs: seq<int>)
    ensures |cbs| == |es| && forall i :: 0 <= i < |es| ==> cbs[i] == es[i].cb
    decreases |es|
  {
    if |es| == 0 then [] else Callbacks(es[..|es| - 1]) + [es[|es| - 1].cb]
  }

  lemma CallbacksNext(es: seq<Entry>, j: nat)
    requires j < |es|
    ensures Callbacks(es[..j + 1]) == Callbacks(es[..j]) + [es[j].cb]
  {}

  /** The pending timers after the first `j` of `es` have been dealt with. */
  ghost function HalfExpired(es: seq<Entry>, j: nat, now: nat): set<Entry>
    requires j <= |es|
  {
    SetOf(es[j..]) + (set e <- es[..j] | e.recurring :: Rekeyed(e, now))
  }

  ghost predicate Distinct(es: seq<Entry>) {
    forall i, j :: 0 <= i < j < |es| ==> es[i].addr != es[j].addr
  }

  lemma HalfExpiredNext(es: seq<Entry>, j: nat, now: nat)
    requires j < |es| && Distinct(es)
    ensures HalfExpired(es, j + 1, now) ==
            HalfExpired(es, j, now) - {es[j]} + if es[j].recurring then {Rekeyed(es[j], now)} else {}
  {}

  lemma NothingDone(es: seq<Entry>, now: nat)
    ensures HalfExpired(es, 0, now) == SetOf(es) && Callbacks(es[..0]) == []
  {}

  lemma NoneExpired(es: seq<Entry>, now: nat, probe: nat)
    requires |es| == 0
    ensures ExpireEntries(SetOf(es), now, probe) == SetOf(es) && Callbacks(es[..0]) == []
  {}

  lemma RankIsExpired(es: seq<Entry>, k: nat, now: nat, probe: nat)
    requires k <= |es|
    requires forall i :: 0 <= i < |es| ==> (i < k <==> Before(es[i].next, es[i].addr, now, probe))
    ensures forall i :: 0 <= i < |es| ==> (i < k <==> Expired(es[i], now, probe))
  {}

  lemma AllExpired(es: seq<Entry>, k: nat, now: nat, probe: nat)
    requires k <= |es| && forall i :: 0 <= i < |es| ==> (i < k <==> Expired(es[i], now, probe))
    ensures HalfExpired(es, k, now) == ExpireEntries(SetOf(es), now, probe)
  {}

  lemma NoneIsEarliest(es: seq<Entry>)
    requires |es| == 0
    ensures IsEarliest(Never, SetOf(es))
  {}

  /** The expired timers are the beginning of the order: their deadlines ascend, every timer due before `now`
      is among them and none due after; of those due at `now`, the ones at lower addresses than the probe. */
  lemma ExpiryOrder(es: seq<Entry>, k: nat, now: nat, probe: nat)
    requires Sorted(es) && k <= |es| && forall i :: 0 <= i < |es| ==> (i < k <==> Expired(es[i], now, probe))
    ensures forall i, j :: 0 <= i < j < k ==> es[i].next <= es[j].next
    ensures forall e <- es :: if e.next == now then e in es[..k] <==> e.addr < probe else e in es[..k] <==> e.next < now
  {}

  lemma FirstIsEarliest(es: seq<Entry>)
    requires Sorted(es) && |es| > 0
    ensures IsEarliest(At(es[0].next), SetOf(es))
  {}

  lemma ErasedSet(es: seq<Entry>, i: nat)
    requires Sorted(es) && i < |es|
    ensures Sorted(es[..i] + es[i + 1..]) && es[i] !in es[..i] + es[i + 1..]
    ensures SetOf(es[..i] + es[i + 1..]) == SetOf(es) - {es[i]}
  {}

  lemma PlacedSet(es: seq<Entry>, e: Entry, i: nat)
    requires Sorted(es) && i <= |es| && forall f <- es :: f.addr != e.addr
    requires forall j :: 0 <= j < |es| ==> (j < i <==> Before(es[j].next, es[j].addr, e.next, e.addr))
    ensures var ds := es[..i] + [e] + es[i..];
            Sorted(ds) && SetOf(ds) == SetOf(es) + {e} && (i == 0 <==> First(e, SetOf(ds)))
  {
    var ds := es[..i] + [e] + es[i..];
    assert forall j :: 0 <= j < |ds| ==> ds[j] == if j < i then es[j] else if j == i then e else es[j - 1];
    assert ds[i] == e;
    if i > 0 {
      assert es[0] in es && es[0] in ds && es[0] != e;
    }
  }
}
