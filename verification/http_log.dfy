/** Laws of callback logs, and the kind of data a configuration has last reported. */
module HttpLog {
  import opened HttpSyntax
  import opened HttpMachine
  import opened HttpInvariant

  lemma PushOne(log: seq<Event>, e: Event)
    ensures PushAll(log, [e]) == Push(log, e)
  {}

  lemma PushNone(log: seq<Event>)
    ensures PushAll(log, []) == log
  {}

  lemma {:induction false} PushAllAppend(log: seq<Event>, a: seq<Event>, b: seq<Event>)
    ensures PushAll(log, a + b) == PushAll(PushAll(log, a), b)
    decreases |a|
  {
    if |a| == 0 {
      assert a + b == b;
    } else {
      assert (a + b)[1..] == a[1..] + b;
      PushAllAppend(Push(log, a[0]), a[1..], b);
    }
  }

  lemma PushJoins(log: seq<Event>, k: DataKind, a: string, b: string)
    ensures Push(Push(log, Data(k, a)), Data(k, b)) == Push(log, Data(k, a + b))
  {
    if |log| > 0 && IsData(log[|log| - 1], k) {
      var x := log[|log| - 1].bytes;
      assert x + a + b == x + (a + b);
    }
  }

  predicate EndsWith(log: seq<Event>, k: DataKind) {
    |log| > 0 && IsData(log[|log| - 1], k)
  }

  lemma PushNothing(log: seq<Event>, k: DataKind)
    requires EndsWith(log, k)
    ensures Push(log, Data(k, "")) == log
  {
    var x := log[|log| - 1].bytes;
    assert x + "" == x;
  }

  /** A parser inside a data item has already reported to that item's callback. */
  predicate Coherent(c: Config) {
    Live(c) && KindOf(c.p.state).Some? ==> EndsWith(c.log, KindOf(c.p.state).value)
  }

  lemma {:induction false} ExecReports(p: Parser, ch: char)
    requires p.errno.Ok?
    ensures var m := Exec(p, ch);
            m.p.errno.Ok? && KindOf(m.p.state).Some? ==> EndsWith(m.events, KindOf(m.p.state).value)
    decreases Rank(p.state)
  {
    hide Dispatch;
    if Dispatch(p, ch).next.Again? {
      ExecReports(Dispatch(p, ch).p, ch);
    }
  }

  lemma PushAllEndsWith(log: seq<Event>, es: seq<Event>, k: DataKind)
    requires EndsWith(es, k)
    ensures EndsWith(PushAll(log, es), k)
  {
    var front, last := es[..|es| - 1], es[|es| - 1];
    assert es == front + [last];
    PushAllAppend(log, front, [last]);
    PushOne(PushAll(log, front), last);
  }

  lemma StepCoherent(c: Config, ch: char)
    requires Coherent(c)
    ensures Coherent(Step(c, ch))
  {
    hide Exec;
    if Live(c) && Count(c.p).errno.Ok? {
      ExecReports(Count(c.p), ch);
      var m := Exec(Count(c.p), ch);
      if m.p.errno.Ok? && KindOf(m.p.state).Some? {
        PushAllEndsWith(c.log, m.events, KindOf(m.p.state).value);
      }
    }
  }

  lemma {:induction false} RunCoherent(c: Config, s: string)
    requires Coherent(c)
    ensures Coherent(Run(c, s))
    decreases |s|
  {
    hide Step, Coherent;
    if |s| > 0 {
      StepCoherent(c, s[0]);
      RunCoherent(Step(c, s[0]), s[1..]);
    }
  }

  lemma {:induction false} RunAppend(c: Config, s: string, t: string)
    ensures Run(c, s + t) == Run(Run(c, s), t)
    decreases |s|
  {
    hide Step;
    if |s| == 0 {
      assert s + t == t;
    } else {
      assert (s + t)[1..] == s[1..] + t;
      RunAppend(Step(c, s[0]), s[1..], t);
    }
  }

  lemma RunSnoc(c: Config, s: string, ch: char)
    ensures Run(c, s + [ch]) == Step(Run(c, s), ch)
  {
    hide Step;
    RunAppend(c, s, [ch]);
    assert Run(Run(c, s), [ch]) == Run(Step(Run(c, s), ch), [ch][1..]);
  }

  lemma {:induction false} RunDead(c: Config, s: string)
    requires !Live(c)
    ensures Run(c, s) == c
    decreases |s|
  {
    if |s| > 0 {
      RunDead(c, s[1..]);
    }
  }
}
