/** The round-robin scheduler: the thread list starts with the kernel's thread, new threads go to its end, and
    a yield goes on to the next thread, or back to the kernel's. */
module Scheduler {
  import opened DList
  import opened Options

  const TIMER_TICK_1_MSEC: nat := 1_000_000
  const QUANTUM: nat := TIMER_TICK_1_MSEC

  // ---------------------------------------------------------------- positions in the list

  /** The number of threads and the position of the current one. */
  datatype Queue = Queue(n: nat, cur: nat)

  datatype Event = Yield | Create

  function Step(q: Queue, e: Event): Queue {
    match e
    case Yield => Queue(q.n, if q.cur + 1 < q.n then q.cur + 1 else 0)
    case Create => Queue(q.n + 1, q.cur)
  }

  function After(q: Queue, es: seq<Event>): Queue
    decreases |es|
  {
    if es == [] then q else After(Step(q, es[0]), es[1..])
  }

  function Yields(es: seq<Event>): nat {
    if es == [] then 0 else (if es[0] == Yield then 1 else 0) + Yields(es[1..])
  }

  function Creates(es: seq<Event>): (c: nat)
    ensures c + Yields(es) == |es|
  {
    if es == [] then 0 else (if es[0] == Create then 1 else 0) + Creates(es[1..])
  }

  lemma {:induction false} AfterSplit(q: Queue, a: seq<Event>, b: seq<Event>)
    ensures After(q, a + b) == After(After(q, a), b) && Yields(a + b) == Yields(a) + Yields(b)
    decreases |a|
  {
    if a == [] {
      assert a + b == b;
    } else {
      AfterSplit(Step(q, a[0]), a[1..], b);
      assert (a + b)[1..] == a[1..] + b;
    }
  }

  lemma {:induction false} Grows(q: Queue, es: seq<Event>)
    ensures After(q, es).n == q.n + Creates(es)
    decreases |es|
  {
    if es != [] { Grows(Step(q, es[0]), es[1..]); }
  }

  /** A thread ahead of the current one runs after exactly its distance in yields, whatever is created
      meanwhile: until then each yield goes one position on. */
  lemma {:induction false} Ahead(q: Queue, es: seq<Event>)
    requires q.cur + Yields(es) < q.n
    ensures After(q, es).cur == q.cur + Yields(es)
    decreases |es|
  {
    if es != [] { Ahead(Step(q, es[0]), es[1..]); }
  }

  /** The run comes to the end of the list at the yield es[w], not before. */
  ghost predicate WrapsAt(q: Queue, es: seq<Event>, w: nat) {
    && w < |es| && es[w] == Yield
    && var at := After(q, es[..w]); at.cur == at.n - 1 && q.cur + Yields(es[..w]) == at.cur
  }

  lemma {:induction false} Wraps(q: Queue, es: seq<Event>) returns (w: nat)
    requires q.cur < q.n && Yields(es) >= q.n + Creates(es) - q.cur
    ensures WrapsAt(q, es, w)
    decreases |es|
  {
    if es[0] == Yield && q.cur == q.n - 1 {
      w := 0;
    } else {
      var v := Wraps(Step(q, es[0]), es[1..]);
      w := v + 1;
      assert es[..w][1..] == es[1..][..v] && es[..w][0] == es[0];
    }
  }

  /** The first position at which a run has seen so many yields. */
  lemma {:induction false} PrefixWith(es: seq<Event>, y: nat) returns (k: nat)
    requires y <= Yields(es)
    ensures k <= |es| && Yields(es[..k]) == y
    decreases |es|
  {
    if y == 0 {
      k := 0;
    } else {
      var j := PrefixWith(es[1..], if es[0] == Yield then y - 1 else y);
      k := j + 1;
      assert es[..k][1..] == es[1..][..j] && es[..k][0] == es[0];
    }
  }

  /** A thread at or behind the current position runs after the run has come to the end of the list and then its
      own position: within as many yields as the list is long at that point, if it is behind. */
  lemma Behind(q: Queue, es: seq<Event>, w: nat, t: nat) returns (k: nat)
    requires t <= q.cur < q.n && WrapsAt(q, es, w) && t <= Yields(es[w + 1..])
    ensures w < k <= |es| && After(q, es[..k]).cur == t
    ensures var n := After(q, es[..w]).n; Yields(es[..k]) == n - q.cur + t && (t < q.cur ==> Yields(es[..k]) < n)
  {
    var rest := es[w + 1..];
    var j := PrefixWith(rest, t);
    k := w + 1 + j;
    var at := After(q, es[..w]);
    assert es[..k] == (es[..w] + [Yield]) + rest[..j];
    AfterSplit(q, es[..w] + [Yield], rest[..j]);
    AfterSplit(q, es[..w], [Yield]);
    assert After(at, [Yield]) == Step(at, Yield) && Yields([Yield]) == 1 by { assert [Yield][1..] == []; }
    Grows(q, es[..w]);
    Ahead(Step(at, Yield), rest[..j]);
  }

  /** Every thread gets to run if threads are not created all the time: after as many yields as there are
      threads in the end, and once more round to its position. */
  lemma EveryThreadRuns(q: Queue, es: seq<Event>, t: nat) returns (k: nat)
    requires t < q.n && q.cur < q.n && Yields(es) >= q.n + Creates(es) - q.cur + t
    ensures k <= |es| && After(q, es[..k]).cur == t
  {
    if t > q.cur {
      k := PrefixWith(es, t - q.cur);
      Ahead(q, es[..k]);
    } else {
      var w := Wraps(q, es);
      var at := After(q, es[..w]);
      assert es == (es[..w] + [Yield]) + es[w + 1..];
      AfterSplit(q, es[..w] + [Yield], es[w + 1..]);
      AfterSplit(q, es[..w], [Yield]);
      assert Yields([Yield]) == 1 by { assert [Yield][1..] == []; }
      Grows(q, es[..w]);
      CreatesSplit(es, w);
      k := Behind(q, es, w, t);
    }
  }

  lemma {:induction false} CreatesSplit(es: seq<Event>, w: nat)
    requires w <= |es|
    ensures Creates(es[..w]) <= Creates(es)
  {
    if w > 0 {
      CreatesSplit(es[1..], w - 1);
      assert es[..w][1..] == es[1..][..w - 1];
    }
  }

  function CreateAndYield(k: nat): seq<Event> {
    if k == 0 then [] else [Create, Yield] + CreateAndYield(k - 1)
  }

  /** With a thread created before every yield, those behind the current one never run, however long the run. */
  lemma {:induction false} Starvation(q: Queue, k: nat, j: nat)
    requires q.cur < q.n && j <= 2 * k
    ensures |CreateAndYield(k)| == 2 * k && After(q, CreateAndYield(k)[..j]).cur == q.cur + j / 2
    decreases k
  {
    if k > 0 {
      var es := CreateAndYield(k);
      var q1 := Step(q, Create);
      var i: nat := if j < 2 then 0 else j - 2;
      Starvation(Step(q1, Yield), k - 1, i);
      assert es[0] == Create && es[1] == Yield && es[2..] == CreateAndYield(k - 1);
      if j == 1 {
        assert es[..1][1..] == [];
      } else if j >= 2 {
        assert es[..j][1..][1..] == es[2..][..i];
      }
    }
  }

  // ---------------------------------------------------------------- the scheduler

  /** Tick counts are 64-bit numbers. */
  const TICKS: nat := 0x1_0000_0000_0000_0000

  /** The two readings of the timer for one tick: before the decision to yield, and of the yield. */
  datatype Tick = Tick(now: nat, later: nat)

  ghost predicate Ordered(from: nat, ticks: seq<Tick>) {
    && (forall j :: 0 <= j < |ticks| ==> from <= ticks[j].now <= ticks[j].later < TICKS)
    && (forall j, k :: 0 <= j < k < |ticks| ==> ticks[j].later <= ticks[k].now)
  }

  /** The time of the last yield after some ticks, and the times of all yields. */
  function LastYield(from: nat, ticks: seq<Tick>): nat {
    if ticks == [] then from
    else
      var before, tick := LastYield(from, ticks[..|ticks| - 1]), ticks[|ticks| - 1];
      if tick.now - before >= QUANTUM then tick.later else before
  }

  function Switched(from: nat, ticks: seq<Tick>): seq<nat> {
    if ticks == [] then []
    else
      var earlier, tick := ticks[..|ticks| - 1], ticks[|ticks| - 1];
      Switched(from, earlier) + (if tick.now - LastYield(from, earlier) >= QUANTUM then [tick.later] else [])
  }

  ghost predicate Apart(from: nat, s: seq<nat>, last: nat) {
    && from <= last && last == (if s == [] then from else s[|s| - 1])
    && (forall j :: 0 <= j < |s| ==> from + 1_000_000 <= s[j] <= last)
    && (forall j, k :: 0 <= j < k < |s| ==> s[j] + 1_000_000 <= s[k])
  }

  lemma OneMore(from: nat, s: seq<nat>, last: nat, tick: Tick)
    requires Apart(from, s, last) && last + 1_000_000 <= tick.now <= tick.later
    ensures Apart(from, s + [tick.later], tick.later)
  {
  }

  lemma LastTick(from: nat, ticks: seq<Tick>)
    requires Ordered(from, ticks) && ticks != []
    ensures var earlier, tick := ticks[..|ticks| - 1], ticks[|ticks| - 1];
            && Ordered(from, earlier) && tick.now <= tick.later
            && var switch := tick.now - LastYield(from, earlier) >= QUANTUM;
            && LastYield(from, ticks) == (if switch then tick.later else LastYield(from, earlier))
            && Switched(from, ticks) == Switched(from, earlier) + (if switch then [tick.later] else [])
  {
  }

  /** Switches are a quantum apart from each other and from the yield before; and no tick comes a quantum or more
      after the yield before it without a switch. */
  lemma {:induction false} QuantumApart(from: nat, ticks: seq<Tick>)
    requires Ordered(from, ticks)
    ensures Apart(from, Switched(from, ticks), LastYield(from, ticks))
    ensures forall j :: 0 <= j < |ticks| ==> ticks[j].now < LastYield(from, ticks) + 1_000_000
  {
    if ticks != [] {
      var earlier, tick := ticks[..|ticks| - 1], ticks[|ticks| - 1];
      QuantumApart(from, earlier);
      LastTick(from, ticks);
      hide Apart, Ordered, Switched, LastYield;
      forall j | 0 <= j < |earlier| ensures ticks[j].now < LastYield(from, ticks) + 1_000_000 {
        assert ticks[j] == earlier[j];
      }
      if tick.now - LastYield(from, earlier) >= QUANTUM {
        OneMore(from, Switched(from, earlier), LastYield(from, earlier), tick);
      }
    }
  }

  class Scheduler {
    const list: List
    const kernel: Node
    var current: Node?
    var saved: map<Node, nat>
    var prevYieldTick: nat
    ghost var at: nat

    /** The kernel's thread is the head of the list, and the current thread a member, at position `at`. */
    ghost predicate Valid()
      reads this, list, list.nodes
    {
      && list.Valid() && list.nodes != [] && list.nodes[0] == kernel
      && at < |list.nodes| && current == list.nodes[at] && prevYieldTick < TICKS
      && forall i: nat :: i < |list.nodes| && i != at ==> list.nodes[i] in saved
    }

    ghost function State(): Queue
      reads this, list
    {
      Queue(|list.nodes|, at)
    }

    /** Starts with the kernel's thread, whose context is saved and resumed on the way. */
    constructor (kernel: Node, context: nat)
      modifies kernel
      ensures Valid() && list.nodes == [kernel] && at == 0 && fresh(list) && prevYieldTick == 0
      ensures this.kernel == kernel && saved == map[kernel := context]
    {
      this.kernel := kernel;
      list := new List();
      current, saved, prevYieldTick, at := null, map[], 0, 0;
      new;
      var _ := Switch(kernel, context);
      list.Insert(kernel, 0);
      current := kernel;
    }

    /** Saves the context of the current thread, or of the first one if there is none yet, and resumes another. */
    method Switch(next: Node, context: nat) returns (sp: nat)
      requires current == null || next == current || next in saved
      modifies this`saved, this`current
      ensures current == next && saved == old(saved)[(if old(current) != null then old(current) else next) := context]
      ensures next in saved && sp == saved[next]
    {
      if current != null {
        saved := saved[current := context];
      } else {
        saved := saved[next := context];
      }
      current := next;
      sp := saved[next];
    }

    /** Goes on to the next thread of the list, or to the kernel's after the last. */
    method Yield(now: nat, context: nat) returns (sp: nat)
      requires Valid() && now < TICKS
      modifies this
      ensures Valid() && State() == Step(old(State()), Event.Yield) && prevYieldTick == now
      ensures saved == old(saved)[old(list.nodes[at]) := context] && current in saved && sp == saved[current]
    {
      assert list.Linked(list.nodes, at);
      prevYieldTick := now;
      var next: Node? := null;
      if current != null { next := current.next; }
      sp := Switch(if next != null then next else kernel, context);
      at := if at + 1 < |list.nodes| then at + 1 else 0;
    }

    /** Called with every tick of the timer: yields once the current thread has had its quantum, after telling the
        caller through its hook if it has one. The timer is read again for the time of the yield. */
    method EvaluateYield(now: nat, later: nat, hook: bool, context: nat) returns (r: Option<nat>, told: bool)
      requires Valid() && now < TICKS && later < TICKS
      modifies this
      ensures Valid()
      ensures r.Some? <==> (now - old(prevYieldTick)) % 0x1_0000_0000_0000_0000 >= 1_000_000
      ensures r.Some? ==> State() == Step(old(State()), Event.Yield) && prevYieldTick == later
      ensures r.Some? ==>
        saved == old(saved)[old(list.nodes[at]) := context] && current in saved && r.value == saved[current]
      ensures r.None? ==> State() == old(State()) && prevYieldTick == old(prevYieldTick) && saved == old(saved)
      ensures told <==> r.Some? && hook
    {
      r, told := None, false;
      if current == null { return; }
      var elapsed := (now - prevYieldTick) % TICKS;
      if elapsed >= QUANTUM {
        told := hook;
        var sp := Yield(later, context);
        r := Some(sp);
      }
    }

    /** A new thread goes to the end of the list. */
    method Create(thread: Node, sp: nat)
      requires Valid() && thread !in list.nodes
      modifies this`saved, list, list.nodes, thread
      ensures Valid() && State() == Step(old(State()), Event.Create) && list.nodes == old(list.nodes) + [thread]
      ensures saved == old(saved)[thread := sp]
    {
      saved := saved[thread := sp];
      list.Insert(thread, -1);
    }

    /** Timer ticks only: switches are at just the times `Switched` says. */
    method RunTimer(ticks: seq<Tick>, context: nat) returns (switches: seq<nat>)
      requires Valid() && Ordered(prevYieldTick, ticks)
      modifies this
      ensures Valid() && switches == Switched(old(prevYieldTick), ticks)
    {
      switches := [];
      assert ticks[..0] == [];
      for i := 0 to |ticks|
        invariant Valid() && prevYieldTick == LastYield(old(prevYieldTick), ticks[..i])
        invariant switches == Switched(old(prevYieldTick), ticks[..i])
        invariant forall j :: i <= j < |ticks| ==> prevYieldTick <= ticks[j].now
      {
        assert ticks[..i + 1][..i] == ticks[..i];
        var before := prevYieldTick;
        var r, told := EvaluateYield(ticks[i].now, ticks[i].later, false, context);
        assert (ticks[i].now - before) % TICKS == ticks[i].now - before;
        if r.Some? { switches := switches + [ticks[i].later]; }
      }
      assert ticks[..|ticks|] == ticks;
    }

    /** Any run of yields and thread creations goes through the positions that `After` says. */
    method Run(es: seq<Event>, now: nat, context: nat)
      requires Valid() && now < TICKS
      modifies this, list, list.nodes
      ensures Valid() && State() == After(old(State()), es) && old(list.nodes) <= list.nodes
    {
      ghost var start, before := State(), list.nodes;
      for i := 0 to |es|
        invariant Valid() && State() == After(start, es[..i]) && before <= list.nodes
        invariant forall k :: |before| <= k < |list.nodes| ==> fresh(list.nodes[k])
      {
        AfterNext(start, es, i);
        if es[i] == Event.Yield {
          var _ := Yield(now, context);
        } else {
          var thread := new Node();
          Create(thread, context);
        }
      }
      assert es[..|es|] == es;
    }
  }

  lemma AfterNext(q: Queue, es: seq<Event>, i: nat)
    requires i < |es|
    ensures After(q, es[..i + 1]) == Step(After(q, es[..i]), es[i])
  {
    assert es[..i + 1] == es[..i] + [es[i]];
    AfterSplit(q, es[..i], [es[i]]);
    assert [es[i]][1..] == [];
  }
}
