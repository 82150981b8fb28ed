/** The time-ordered event queue: a sorted linked list of pending event descriptors and a list
    of free ones, and the timed effects of servicing them. */
module EventQueue {
  import opened Wrappers

  // ---------- events and their effects ----------

  /** Pointers to flags, summands, bitmaps and functions are numbers. */
  datatype Action =
    | SetBit(bmap: nat, bitnum: nat)
    | ClearBit(bmap: nat, bitnum: nat)
    | SetFlag(flag: nat, value: int)
    | AddOp(summand: nat, addend: int)
    | Callback(fn: nat, arg: int)

  datatype Event = Event(when: int, id: nat, action: Action)

  datatype Invocation = Invocation(fn: nat, time: int, arg: int)

  /** What events act on: ints, bits of bitmaps, and the calls made so far. */
  datatype World = World(cells: map<nat, int>, bits: set<(nat, nat)>, calls: seq<Invocation>)

  function Cell(w: World, p: nat): int {
    if p in w.cells then w.cells[p] else 0
  }

  /** 32-bit signed addition. */
  function Add32(x: int, y: int): int {
    (x + y + WORD32 / 2) % WORD32 - WORD32 / 2
  }

  /** EXECUTE_ACTION. */
  function Apply(e: Event, now: int, w: World): World {
    match e.action
    case SetBit(m, b) => w.(bits := w.bits + {(m, b)})
    case ClearBit(m, b) => w.(bits := w.bits - {(m, b)})
    case SetFlag(p, v) => w.(cells := w.cells[p := v])
    case AddOp(p, d) => w.(cells := w.cells[p := Add32(Cell(w, p), d)])
    case Callback(fn, arg) => w.(calls := w.calls + [Invocation(fn, now, arg)])
  }

  /** Events in order, all at the same time. */
  function Run(es: seq<Event>, now: int, w: World): World {
    if es == [] then w else Run(es[1..], now, Apply(es[0], now, w))
  }

  /** Earlier first; at equal times newest first. */
  predicate Before(e: Event, f: Event) {
    e.when < f.when || (e.when == f.when && e.id > f.id)
  }

  predicate Ordered(es: seq<Event>) {
    forall i, j | 0 <= i < j < |es| :: Before(es[i], es[j])
  }

  predicate Distinct(es: seq<Event>, nextId: nat) {
    && (forall i | 0 <= i < |es| :: es[i].id < nextId)
    && (forall i, j | 0 <= i < j < |es| :: es[i].id != es[j].id)
  }

  /** The insertion point: behind everything strictly earlier. */
  function Position(es: seq<Event>, when: int): (p: nat)
    ensures p <= |es| && (p < |es| ==> es[p].when >= when)
    ensures forall i | 0 <= i < p :: es[i].when < when
  {
    if es != [] && es[0].when < when then Position(es[1..], when) + 1 else 0
  }

  function Inserted(es: seq<Event>, e: Event): seq<Event> {
    es[..Position(es, e.when)] + [e] + es[Position(es, e.when)..]
  }

  lemma InsertedAt(es: seq<Event>, e: Event, i: nat)
    requires i <= |es|
    ensures |Inserted(es, e)| == |es| + 1
    ensures var p := Position(es, e.when);
            Inserted(es, e)[i] == if i < p then es[i] else if i == p then e else es[i - 1]
  {
  }

  lemma InsertedBag(es: seq<Event>, e: Event)
    ensures multiset(Inserted(es, e)) == multiset(es) + multiset{e}
  {
    var p := Position(es, e.when);
    assert es == es[..p] + es[p..];
  }

  /** A new event, younger than all others, keeps the order, and every other event stays. */
  lemma InsertKeepsOrder(es: seq<Event>, e: Event, nextId: nat)
    requires Ordered(es) && Distinct(es, nextId) && e.id == nextId
    ensures Ordered(Inserted(es, e)) && Distinct(Inserted(es, e), nextId + 1)
    ensures multiset(Inserted(es, e)) == multiset(es) + multiset{e}
  {
    hide Inserted;
    var p, s := Position(es, e.when), Inserted(es, e);
    InsertedAt(es, e, 0);
    InsertedBag(es, e);
    forall i | 0 <= i < |s| ensures s[i].id < nextId + 1 {
      InsertedAt(es, e, i);
    }
    forall i, j | 0 <= i < j < |s| ensures Before(s[i], s[j]) && s[i].id != s[j].id {
      InsertedAt(es, e, i);
      InsertedAt(es, e, j);
      if i == p && j > p + 1 {
        assert Before(es[p], es[j - 1]);
      }
    }
  }

  function Without<T>(s: seq<T>, i: nat): seq<T>
    requires i < |s|
  {
    s[..i] + s[i + 1..]
  }

  lemma RemovalKeepsOrder(es: seq<Event>, i: nat, nextId: nat)
    requires Ordered(es) && Distinct(es, nextId) && i < |es|
    ensures Ordered(Without(es, i)) && Distinct(Without(es, i), nextId)
    ensures multiset(Without(es, i)) == multiset(es) - multiset{es[i]}
  {
    var s := Without(es, i);
    assert es == es[..i] + [es[i]] + es[i + 1..];
    forall j, k | 0 <= j < k < |s| ensures Before(s[j], s[k]) && s[j].id != s[k].id {
      assert s[j] == es[if j < i then j else j + 1] && s[k] == es[if k < i then k else k + 1];
    }
  }

  /** The first event with an id, or the length of the list. */
  function Find(es: seq<Event>, id: nat): (i: nat)
    ensures i <= |es| && (i < |es| ==> es[i].id == id)
    ensures forall k | 0 <= k < i :: es[k].id != id
  {
    if es != [] && es[0].id != id then Find(es[1..], id) + 1 else 0
  }

  predicate HasId(es: seq<Event>, id: nat) {
    exists e :: e in es && e.id == id
  }

  // ---------- servicing ----------

  /** The number of events to service now. */
  function DueCount(es: seq<Event>, now: int): (n: nat)
    ensures n <= |es| && (n < |es| ==> es[n].when > now)
    ensures forall i | 0 <= i < n :: es[i].when <= now
  {
    if es != [] && es[0].when <= now then DueCount(es[1..], now) + 1 else 0
  }

  function Due(es: seq<Event>, now: int): seq<Event> {
    es[..DueCount(es, now)]
  }

  function Later(es: seq<Event>, now: int): seq<Event> {
    es[DueCount(es, now)..]
  }

  /** In a sorted queue, the events serviced are exactly those whose time has come. */
  lemma DueIsAllDue(es: seq<Event>, now: int, e: Event)
    requires Ordered(es) && e in es
    ensures e in Due(es, now) <==> e.when <= now
    ensures e in Later(es, now) <==> e.when > now
  {
    var n := DueCount(es, now);
    var i :| 0 <= i < |es| && es[i] == e;
    if i < n {
      assert Due(es, now)[i] == e;
    } else {
      assert Later(es, now)[i - n] == e;
      assert i == n || Before(es[n], es[i]);
    }
  }

  lemma DueAt(es: seq<Event>, now: int, n: nat)
    requires n <= |es| && (forall i | 0 <= i < n :: es[i].when <= now) && (n < |es| ==> es[n].when > now)
    ensures DueCount(es, now) == n
  {
    if n > 0 {
      DueAt(es[1..], now, n - 1);
    }
  }

  /** Servicing in two steps takes the events that one step takes, in the same order. */
  lemma DueSplits(es: seq<Event>, t1: int, t2: int)
    requires Ordered(es) && t1 <= t2
    ensures Due(es, t2) == Due(es, t1) + Due(Later(es, t1), t2)
    ensures Later(es, t2) == Later(Later(es, t1), t2)
  {
    hide DueCount, Ordered;
    var n := DueCount(es, t1);
    var rest := es[n..];
    var m := DueCount(rest, t2);
    forall i | 0 <= i < n + m ensures es[i].when <= t2 {
      if i >= n { assert es[i] == rest[i - n]; }
    }
    if n + m < |es| { assert es[n + m] == rest[m]; }
    DueAt(es, t2, n + m);
    assert es[..n + m] == es[..n] + rest[..m] && es[n + m..] == rest[m..];
  }

  lemma {:induction false} RunAppend(a: seq<Event>, b: seq<Event>, now: int, w: World)
    ensures Run(a + b, now, w) == Run(b, now, Run(a, now, w))
  {
    if a == [] {
      assert a + b == b;
    } else {
      assert (a + b)[1..] == a[1..] + b;
      RunAppend(a[1..], b, now, Apply(a[0], now, w));
    }
  }

  // ---------- what events leave behind ----------

  /** Each action by what it changes: one bit, one cell, or the list of calls. */
  lemma ActionIs(e: Event, now: int, w: World)
    ensures var r := Apply(e, now, w);
            match e.action
            case SetBit(m, b) =>
              && r.cells == w.cells && r.calls == w.calls && (m, b) in r.bits
              && forall x | x != (m, b) :: x in r.bits <==> x in w.bits
            case ClearBit(m, b) =>
              && r.cells == w.cells && r.calls == w.calls && (m, b) !in r.bits
              && forall x | x != (m, b) :: x in r.bits <==> x in w.bits
            case SetFlag(p, v) =>
              && r.bits == w.bits && r.calls == w.calls && Cell(r, p) == v
              && forall q: nat | q != p :: Cell(r, q) == Cell(w, q)
            case AddOp(p, d) =>
              && r.bits == w.bits && r.calls == w.calls
              && -0x8000_0000 <= Cell(r, p) < 0x8000_0000
              && (Cell(w, p) + d - Cell(r, p)) % 0x1_0000_0000 == 0
              && forall q: nat | q != p :: Cell(r, q) == Cell(w, q)
            case Callback(fn, arg) =>
              r.cells == w.cells && r.bits == w.bits && r.calls == w.calls + [Invocation(fn, now, arg)]
  {
  }

  /** A bit is set behind events if and only if one of them sets it and none after that clears it,
      or it was set and none clears it. */
  lemma {:induction false} BitIs(es: seq<Event>, now: int, w: World, m: nat, b: nat)
    ensures (m, b) in Run(es, now, w).bits <==>
            || (exists k :: SetsLast(es, k, m, b))
            || ((m, b) in w.bits && forall j | 0 <= j < |es| :: es[j].action != ClearBit(m, b))
    decreases |es|
  {
    if es != [] {
      var w1 := Apply(es[0], now, w);
      ActionIs(es[0], now, w);
      BitIs(es[1..], now, w1, m, b);
      SetsLastTail(es, m, b);
      assert (forall j | 0 <= j < |es| :: es[j].action != ClearBit(m, b)) <==>
             es[0].action != ClearBit(m, b) && (forall j | 0 <= j < |es[1..]| :: es[1..][j].action != ClearBit(m, b))
      by {
        assert forall j | 0 < j < |es| :: es[j] == es[1..][j - 1];
      }
    }
  }

  /** Event k sets the bit, and no later one clears it. */
  predicate SetsLast(es: seq<Event>, k: nat, m: nat, b: nat) {
    k < |es| && es[k].action == SetBit(m, b) && forall j | k < j < |es| :: es[j].action != ClearBit(m, b)
  }

  lemma BitsAre(es: seq<Event>, now: int, w: World)
    ensures forall m: nat, b: nat ::
              (m, b) in Run(es, now, w).bits <==>
              || (exists k :: SetsLast(es, k, m, b))
              || ((m, b) in w.bits && forall j | 0 <= j < |es| :: es[j].action != ClearBit(m, b))
  {
    hide Run, SetsLast;
    forall m: nat, b: nat
      ensures (m, b) in Run(es, now, w).bits <==>
              || (exists k :: SetsLast(es, k, m, b))
              || ((m, b) in w.bits && forall j | 0 <= j < |es| :: es[j].action != ClearBit(m, b))
    {
      BitIs(es, now, w, m, b);
    }
  }

  lemma SetsLastTail(es: seq<Event>, m: nat, b: nat)
    requires es != []
    ensures (exists k :: SetsLast(es, k, m, b)) <==>
            SetsLast(es, 0, m, b) || exists k :: SetsLast(es[1..], k, m, b)
  {
    var rest := es[1..];
    assert forall j | 0 < j < |es| :: es[j] == rest[j - 1];
    if k: nat :| k > 0 && SetsLast(es, k, m, b) {
      assert SetsLast(rest, k - 1, m, b);
    }
    if k: nat :| SetsLast(rest, k, m, b) {
      assert SetsLast(es, k + 1, m, b);
    }
  }

  /** What events add to a cell, before it wraps around. */
  function Added(es: seq<Event>, p: nat): int {
    if es == [] then 0
    else (if es[0].action.AddOp? && es[0].action.summand == p then es[0].action.addend else 0) + Added(es[1..], p)
  }

  /** A cell that no event overwrites is left as the 32-bit sum of what it was and what is added. */
  lemma {:induction false} CellAdds(es: seq<Event>, now: int, w: World, p: nat)
    requires -0x8000_0000 <= Cell(w, p) < 0x8000_0000
    requires forall j | 0 <= j < |es| :: !(es[j].action.SetFlag? && es[j].action.flag == p)
    ensures var c := Cell(Run(es, now, w), p);
            -0x8000_0000 <= c < 0x8000_0000 && (Cell(w, p) + Added(es, p) - c) % 0x1_0000_0000 == 0
    decreases |es|
  {
    hide Apply;
    if es != [] {
      ActionIs(es[0], now, w);
      CellAdds(es[1..], now, Apply(es[0], now, w), p);
    }
  }

  /** An overwritten one is left as that of the last value written and what is added after that. */
  lemma CellIs(es: seq<Event>, now: int, w: World, p: nat, k: nat)
    requires k < |es| && es[k].action.SetFlag? && es[k].action.flag == p
    requires -0x8000_0000 <= es[k].action.value < 0x8000_0000
    requires forall j | k < j < |es| :: !(es[j].action.SetFlag? && es[j].action.flag == p)
    ensures var c := Cell(Run(es, now, w), p);
            && -0x8000_0000 <= c < 0x8000_0000
            && (es[k].action.value + Added(es[k + 1..], p) - c) % 0x1_0000_0000 == 0
  {
    hide Run, Cell;
    var before, after := es[..k], es[k..];
    assert es == before + after && after[0] == es[k] && after[1..] == es[k + 1..];
    RunAppend(before, after, now, w);
    var w1 := Run(before, now, w);
    RunFirst(after, now, w1);
    ActionIs(es[k], now, w1);
    CellAdds(es[k + 1..], now, Apply(es[k], now, w1), p);
  }

  lemma RunFirst(es: seq<Event>, now: int, w: World)
    requires es != []
    ensures Run(es, now, w) == Run(es[1..], now, Apply(es[0], now, w))
  {
  }

  /** The calls made by events. */
  function Calls(es: seq<Event>, now: int): seq<Invocation> {
    if es == [] then []
    else (if es[0].action.Callback? then [Invocation(es[0].action.fn, now, es[0].action.arg)] else []) +
         Calls(es[1..], now)
  }

  /** Only the calls see the time. */
  lemma {:induction false} RunIs(es: seq<Event>, now: int, w: World, t: int, calls: seq<Invocation>)
    ensures var r, s := Run(es, now, w), Run(es, t, w.(calls := calls));
            r.calls == w.calls + Calls(es, now) && s == r.(calls := calls + Calls(es, t))
  {
    if es != [] {
      var w1, w2 := Apply(es[0], now, w), Apply(es[0], t, w.(calls := calls));
      assert w2 == w1.(calls := w2.calls);
      RunIs(es[1..], now, w1, t, w2.calls);
    }
  }

  predicate HasCallback(es: seq<Event>) {
    exists i :: 0 <= i < |es| && es[i].action.Callback?
  }

  lemma {:induction false} CallsDiffer(es: seq<Event>, t1: int, t2: int)
    ensures |Calls(es, t1)| == |Calls(es, t2)|
    ensures Calls(es, t1) == Calls(es, t2) <==> t1 == t2 || !HasCallback(es)
  {
    if es != [] {
      CallsDiffer(es[1..], t1, t2);
      assert HasCallback(es) <==> es[0].action.Callback? || HasCallback(es[1..]) by {
        if HasCallback(es[1..]) {
          var i :| 0 <= i < |es[1..]| && es[1..][i].action.Callback?;
          assert es[i + 1].action.Callback?;
        }
        if HasCallback(es) && !es[0].action.Callback? {
          var i :| 0 <= i < |es| && es[i].action.Callback?;
          assert es[1..][i - 1].action.Callback?;
        }
      }
      if es[0].action.Callback? {
        assert Calls(es, t1)[0].time == t1 && Calls(es, t2)[0].time == t2;
      } else {
        assert Calls(es, t1) == Calls(es[1..], t1) && Calls(es, t2) == Calls(es[1..], t2);
      }
    }
  }

  /** Servicing at t1 and then at t2 is the same as servicing once at t2, exactly when the times
      are equal or no event due at t1 is a callback, which is told the time. */
  lemma ServiceTwice(es: seq<Event>, t1: int, t2: int, w: World)
    requires Ordered(es) && t1 <= t2
    ensures Run(Due(Later(es, t1), t2), t2, Run(Due(es, t1), t1, w)) == Run(Due(es, t2), t2, w) <==>
            t1 == t2 || !HasCallback(Due(es, t1))
  {
    hide Due, Later, Run, Calls;
    var a, b := Due(es, t1), Due(Later(es, t1), t2);
    DueSplits(es, t1, t2);
    RunAppend(a, b, t2, w);
    RunIs(a, t1, w, t2, w.calls);
    assert w.(calls := w.calls) == w;
    var w1, w2 := Run(a, t1, w), Run(a, t2, w);
    assert w2 == w1.(calls := w2.calls);
    RunIs(b, t2, w1, t2, w2.calls);
    CallsDiffer(a, t1, t2);
    SameTail(w.calls + Calls(a, t1), w.calls + Calls(a, t2), Calls(b, t2));
    SameHead(w.calls, Calls(a, t1), Calls(a, t2));
  }

  lemma SameTail(x: seq<Invocation>, y: seq<Invocation>, z: seq<Invocation>)
    requires |x| == |y|
    ensures x + z == y + z <==> x == y
  {
    assert (x + z)[..|x|] == x && (y + z)[..|y|] == y;
  }

  lemma SameHead(z: seq<Invocation>, x: seq<Invocation>, y: seq<Invocation>)
    ensures z + x == z + y <==> x == y
  {
    assert (z + x)[|z|..] == x && (z + y)[|z|..] == y;
  }

  // ---------- the linked lists ----------

  /** struct eventq_desc. */
  class Desc {
    var next: Desc?
    var event: Event

    constructor ()
      ensures next == null
    {
      next := null;
      event := Event(0, 0, SetFlag(0, 0));
    }
  }

  ghost predicate Linked(head: Desc?, chain: seq<Desc>)
    reads chain
  {
    && head == (if chain == [] then null else chain[0])
    && forall i {:trigger chain[i].next} | 0 <= i < |chain| ::
         chain[i].next == if i + 1 < |chain| then chain[i + 1] else null
  }

  ghost predicate Shown(chain: seq<Desc>, es: seq<Event>)
    reads chain
  {
    |chain| == |es| && forall i | 0 <= i < |chain| :: chain[i].event == es[i]
  }

  /** No descriptor is twice in the two lists. */
  ghost predicate Apart(a: seq<Desc>, b: seq<Desc>) {
    && (forall i, j | 0 <= i < j < |a| :: a[i] != a[j])
    && (forall i, j | 0 <= i < j < |b| :: b[i] != b[j])
    && (forall d | d in a :: d !in b)
  }

  /** The next pointers of a list, as values. */
  ghost predicate NextsAre(chain: seq<Desc>, nexts: seq<Desc?>) {
    |nexts| == |chain| && forall k | 0 <= k < |nexts| :: nexts[k] == if k + 1 < |chain| then chain[k + 1] else null
  }

  ghost function Nexts(chain: seq<Desc>): (nexts: seq<Desc?>)
    ensures NextsAre(chain, nexts)
  {
    if chain == [] then [] else chain[1..] + [null]
  }

  lemma LinkedNexts(head: Desc?, chain: seq<Desc>)
    requires Linked(head, chain)
    ensures forall k | 0 <= k < |chain| :: chain[k].next == Nexts(chain)[k]
    ensures head == if chain == [] then null else chain[0]
  {
  }

  /** Bypassing entry i. */
  lemma UnlinkedAt(head: Desc?, chain: seq<Desc>, i: nat)
    requires i < |chain| && head == (if i == 0 then Nexts(chain)[0] else chain[0])
    requires forall k | 0 <= k < |chain| && k + 1 != i :: chain[k].next == Nexts(chain)[k]
    requires i > 0 ==> chain[i - 1].next == Nexts(chain)[i]
    ensures Linked(head, Without(chain, i))
  {
    hide Nexts;
    var s := Without(chain, i);
    forall k | 0 <= k < |s| ensures s[k].next == if k + 1 < |s| then s[k + 1] else null {
      var j := if k < i then k else k + 1;
      assert s[k] == chain[j];
      assert k + 1 < |s| ==> s[k + 1] == chain[if k + 1 < i then k + 1 else k + 2];
    }
  }

  /** Linking d in at p. */
  lemma LinkedAt(head: Desc?, chain: seq<Desc>, p: nat, d: Desc)
    requires p <= |chain| && head == (if p == 0 then d else chain[0])
    requires forall k | 0 <= k < |chain| && k + 1 != p :: chain[k].next == Nexts(chain)[k]
    requires p > 0 ==> chain[p - 1].next == d
    requires d.next == if p < |chain| then chain[p] else null
    ensures Linked(head, chain[..p] + [d] + chain[p..])
  {
    hide Nexts;
    var s := chain[..p] + [d] + chain[p..];
    forall k | 0 <= k < |s| ensures s[k].next == if k + 1 < |s| then s[k + 1] else null {
      assert k < p ==> s[k] == chain[k];
      assert k > p ==> s[k] == chain[k - 1];
      assert k + 1 < |s| ==> s[k + 1] == if k + 1 < p then chain[k + 1] else if k + 1 == p then d else chain[k];
    }
  }

  lemma ApartWithout(a: seq<Desc>, b: seq<Desc>, i: nat)
    requires Apart(a, b) && i < |a|
    ensures Apart(Without(a, i), b) && a[i] !in Without(a, i) && a[i] !in b
    ensures multiset(Without(a, i)) + multiset{a[i]} == multiset(a)
  {
    assert a == a[..i] + [a[i]] + a[i + 1..];
    var s := Without(a, i);
    forall j, k | 0 <= j < k < |s| ensures s[j] != s[k] {
      assert s[j] == a[if j < i then j else j + 1] && s[k] == a[if k < i then k else k + 1];
    }
    forall d | d in s ensures d in a && d != a[i] {
      var j :| 0 <= j < |s| && s[j] == d;
      assert s[j] == a[if j < i then j else j + 1];
    }
  }

  lemma ApartWith(a: seq<Desc>, b: seq<Desc>, p: nat, d: Desc)
    requires Apart(a, b) && p <= |a| && d !in a && d !in b
    ensures Apart(a[..p] + [d] + a[p..], b) && Apart(a, [d] + b)
    ensures forall e :: e in a[..p] + [d] + a[p..] <==> e == d || e in a
  {
    var s := a[..p] + [d] + a[p..];
    assert a == a[..p] + a[p..];
    forall j, k | 0 <= j < k < |s| ensures s[j] != s[k] {
      assert j != p ==> s[j] == a[if j < p then j else j - 1];
      assert k != p ==> s[k] == a[if k < p then k else k - 1];
    }
  }

  lemma ShownWithout(chain: seq<Desc>, es: seq<Event>, i: nat)
    requires Shown(chain, es) && i < |chain| == |es|
    ensures |Without(chain, i)| == |Without(es, i)|
    ensures Shown(Without(chain, i), Without(es, i))
  {
  }

  lemma ShownWith(chain: seq<Desc>, es: seq<Event>, p: nat, d: Desc)
    requires Shown(chain, es) && p <= |chain|
    ensures Shown(chain[..p] + [d] + chain[p..], es[..p] + [d.event] + es[p..])
  {
  }

  // ---------- the queue ----------

  class Queue {
    var head: Desc?
    var freeHead: Desc?
    var nextId: nat
    var world: World
    ghost var pending: seq<Desc>
    ghost var free: seq<Desc>
    ghost var events: seq<Event>

    ghost predicate ListsOk()
      reads this`head, this`freeHead, this`pending, this`free, this`events
      reads pending, free
    {
      && Linked(head, pending) && Linked(freeHead, free) && Apart(pending, free)
      && Shown(pending, events) && |pending| == |events|
    }

    ghost predicate Valid()
      reads this`head, this`freeHead, this`pending, this`free, this`events, this`nextId
      reads pending, free
    {
      ListsOk() && Ordered(events) && Distinct(events, nextId)
    }

    constructor ()
      ensures Valid() && events == [] && pending == free == []
      ensures world == World(map[], {}, [])
    {
      head, freeHead, nextId := null, null, 1;
      world := World(map[], {}, []);
      pending, free, events := [], [], [];
    }

    /** The pointer assignment that takes entry i out of a list. */
    method Bypass(prev: Desc?, ev: Desc, ghost chain: seq<Desc>, ghost es: seq<Event>, ghost i: nat)
      requires Shown(chain, es) && Linked(head, chain) && i < |chain| && ev == chain[i]
      requires forall j, k | 0 <= j < k < |chain| :: chain[j] != chain[k]
      requires prev == if i == 0 then null else chain[i - 1]
      modifies this`head, (set d | d in chain)`next
      ensures Linked(head, Without(chain, i)) && Shown(chain, es)
    {
      hide Linked, Nexts, Without;
      LinkedNexts(head, chain);
      if prev != null {
        prev.next := ev.next;
      } else {
        head := ev.next;
      }
      UnlinkedAt(head, chain, i);
    }

    /** Takes entry i, behind prev, out of the pending list. */
    method Unlink(prev: Desc?, ev: Desc, ghost i: nat)
      requires Valid() && i < |pending| && ev == pending[i] && prev == if i == 0 then null else pending[i - 1]
      modifies this`head, this`pending, this`events, (set d | d in pending)`next
      ensures Valid() && pending == Without(old(pending), i) && events == Without(old(events), i)
      ensures ev !in pending && ev !in free
      ensures multiset(pending) + multiset{ev} == multiset(old(pending))
    {
      hide Apart, Without, Ordered, Distinct, Linked, Shown;
      ghost var chain := pending;
      ApartWithout(chain, free, i);
      Distinctly(chain, free);
      Bypass(prev, ev, chain, events, i);
      ShownWithout(chain, events, i);
      RemovalKeepsOrder(events, i, nextId);
      pending, events := Without(pending, i), Without(events, i);
      assert Linked(head, pending);
      assert Linked(freeHead, free);
      assert Apart(pending, free);
      assert Shown(pending, events);
      assert Ordered(events);
      assert Distinct(events, nextId);
    }

    /** Puts a descriptor on the free list. */
    method Release(ev: Desc)
      requires Valid() && ev !in pending && ev !in free
      modifies this`freeHead, this`free, ev`next
      ensures Valid() && free == [ev] + old(free)
    {
      hide Nexts, Ordered, Distinct;
      LinkedNexts(freeHead, free);
      ApartWith(pending, free, 0, ev);
      ev.next := freeHead;
      freeHead := ev;
      LinkedAt(freeHead, free, 0, ev);
      assert free[..0] + [ev] + free[0..] == [ev] + free;
      free := [ev] + free;
      assert Linked(head, pending);
    }

    /** The descriptor for a new event: a free one, or a fresh one. */
    method Grab() returns (d: Desc)
      requires Valid()
      modifies this`freeHead, this`free
      ensures Valid() && d !in pending && d !in free
      ensures if old(free) == [] then fresh(d) && free == [] else d == old(free[0]) && free == old(free)[1..]
    {
      hide Ordered, Distinct, Shown, Apart;
      if freeHead == null {
        freeHead := new Desc();
        free := [freeHead];
        assert Linked(head, pending) && Shown(pending, events);
        FreshApart(pending, freeHead);
      }
      d := freeHead;
      ApartTail(pending, free);
      freeHead := freeHead.next;
      free := free[1..];
    }

    /** The search for the insertion point. */
    method Locate(when: int) returns (prev: Desc?, ev: Desc?, ghost p: nat)
      requires Valid()
      ensures var q := Position(events, when);
              && p == q <= |pending| && prev == (if q == 0 then null else pending[q - 1])
              && ev == if q < |pending| then pending[q] else null
    {
      hide Ordered, Distinct, Apart;
      prev, ev, p := null, head, 0;
      while ev != null && ev.event.when < when
        invariant 0 <= p <= |pending| && Linked(head, pending) && Shown(pending, events)
        invariant prev == if p == 0 then null else pending[p - 1]
        invariant ev == if p < |pending| then pending[p] else null
        invariant forall k | 0 <= k < p :: events[k].when < when
        decreases |pending| - p
      {
        prev, ev := ev, ev.next;
        p := p + 1;
      }
      PositionIs(events, when, p);
    }

    /** __QUEUE_EVENT. */
    method Enqueue(when: int, action: Action) returns (id: nat)
      requires Valid()
      modifies this`head, this`freeHead, this`pending, this`free, this`events, this`nextId, pending, free
      ensures Valid() && id == old(nextId) && nextId == id + 1
      ensures events == Inserted(old(events), Event(when, id, action))
      ensures old(free) != [] ==> multiset(pending + free) == multiset(old(pending + free))
      ensures old(free) == [] ==>
                free == [] && exists d :: fresh(d) && multiset(pending) == multiset(old(pending)) + multiset{d}
    {
      hide Ordered, Distinct, Shown, Apart, Inserted, Linked;
      var d := Grab();
      id := nextId;
      var prev, p := Fill(d, Event(when, id, action));
      InsertKeepsOrder(events, d.event, id);
      LinkIn(prev, d, p);
      Conserved(old(pending), old(free), d, p);
    }

    /** Plugging in the data, and the search for the place. */
    method Fill(d: Desc, e: Event) returns (prev: Desc?, ghost p: nat)
      requires Valid() && d !in pending && d !in free && e.id == nextId
      modifies this`nextId, d`event
      ensures ListsOk() && Ordered(events) && Distinct(events, e.id) && nextId == e.id + 1 && d.event == e
      ensures p == Position(events, e.when) && p <= |pending| && prev == if p == 0 then null else pending[p - 1]
    {
      hide Ordered, Distinct, Apart, Linked;
      nextId := nextId + 1;
      d.event := e;
      assert Linked(head, pending);
      assert Linked(freeHead, free);
      assert Shown(pending, events);
      DistinctMore(events, e.id);
      var ev: Desc?;
      prev, ev, p := Locate(e.when);
    }

    /** The pointer assignments of an insertion. */
    method Splice(prev: Desc?, d: Desc, ghost chain: seq<Desc>, ghost es: seq<Event>, ghost p: nat)
      requires Linked(head, chain) && Shown(chain, es) && p <= |chain| && d !in chain
      requires forall j, k | 0 <= j < k < |chain| :: chain[j] != chain[k]
      requires prev == if p == 0 then null else chain[p - 1]
      modifies this`head, d`next, (set n | n in chain)`next
      ensures Linked(head, chain[..p] + [d] + chain[p..]) && Shown(chain, es)
    {
      hide Linked, Nexts;
      LinkedNexts(head, chain);
      if prev != null {
        d.next := prev.next;
        prev.next := d;
      } else {
        d.next := head;
        head := d;
      }
      LinkedAt(head, chain, p, d);
    }

    method LinkIn(prev: Desc?, d: Desc, ghost p: nat)
      requires ListsOk() && d !in pending && d !in free && p == Position(events, d.event.when)
      requires prev == (if p == 0 then null else pending[p - 1])
      requires Ordered(Inserted(events, d.event)) && Distinct(Inserted(events, d.event), nextId)
      modifies this`head, this`pending, this`events, d`next, (set n | n in pending)`next
      ensures Valid() && events == Inserted(old(events), d.event) && |pending| == old(|pending|) + 1
      ensures pending == old(pending)[..p] + [d] + old(pending)[p..]
    {
      hide Ordered, Distinct, Shown, Apart, Linked;
      ghost var chain := pending;
      ApartWith(chain, free, p, d);
      Distinctly(chain, free);
      Splice(prev, d, chain, events, p);
      ShownWith(chain, events, p, d);
      pending, events := chain[..p] + [d] + chain[p..], Inserted(events, d.event);
      assert Linked(head, pending);
      assert Linked(freeHead, free);
      assert Apart(pending, free);
      assert Shown(pending, events);
    }

    /** The search by identifier. */
    method Search(id: nat) returns (prev: Desc?, ev: Desc?, ghost i: nat)
      requires Valid()
      ensures i == Find(events, id) && i <= |pending| == |events|
      ensures prev == (if i == 0 then null else pending[i - 1]) && ev == if i < |pending| then pending[i] else null
      ensures (ev != null <==> HasId(events, id)) && (ev != null ==> ev.event == events[i])
    {
      hide Ordered, Distinct, Apart;
      prev, ev, i := null, head, 0;
      while ev != null && ev.event.id != id
        invariant 0 <= i <= |pending| && Linked(head, pending) && Shown(pending, events)
        invariant prev == if i == 0 then null else pending[i - 1]
        invariant ev == if i < |pending| then pending[i] else null
        invariant forall k | 0 <= k < i :: events[k].id != id
        decreases |pending| - i
      {
        prev, ev := ev, ev.next;
        i := i + 1;
      }
      FindIs(events, id, i);
      FoundIs(events, id);
    }

    /** eventq_remove: the event never happens, and its descriptor becomes free. */
    method Remove(id: nat) returns (found: bool)
      requires Valid()
      modifies this`head, this`freeHead, this`pending, this`free, this`events, (set d | d in pending)`next
      ensures Valid() && multiset(pending + free) == multiset(old(pending + free))
      ensures found <==> HasId(old(events), id)
      ensures events == if found then Without(old(events), Find(old(events), id)) else old(events)
    {
      hide ListsOk, Ordered, Distinct, Without, HasId, Find;
      var prev, ev, i := Search(id);
      found := ev != null;
      if found {
        Unlink(prev, ev, i);
        Release(ev);
        MovedOver(old(pending), old(free), pending, ev);
      }
    }

    /** eventq_execute: as remove, after acting at time 0. */
    method Execute(id: nat) returns (found: bool)
      requires Valid()
      modifies this`head, this`freeHead, this`pending, this`free, this`events, this`world
      modifies (set d | d in pending)`next
      ensures Valid() && multiset(pending + free) == multiset(old(pending + free))
      ensures found <==> HasId(old(events), id)
      ensures events == if found then Without(old(events), Find(old(events), id)) else old(events)
      ensures world == if found then Apply(old(events)[Find(old(events), id)], 0, old(world)) else old(world)
    {
      hide ListsOk, Ordered, Distinct, Without, HasId, Find, Apply;
      var prev, ev, i := Search(id);
      found := ev != null;
      if found {
        Unlink(prev, ev, i);
        world := Apply(ev.event, 0, world);
        Release(ev);
        MovedOver(old(pending), old(free), pending, ev);
      }
    }

    lemma LengthsAgree()
      requires Valid()
      ensures |pending| == |events| && (head == if pending == [] then null else pending[0])
      ensures forall i | 0 <= i < |pending| :: pending[i].event == events[i]
    {
    }

    /** eventq_service_events: the first descriptor acts and becomes free, as long as its time
        has come. */
    method Service(now: int)
      requires Valid()
      modifies this`head, this`freeHead, this`pending, this`free, this`events, this`world
      modifies (set d | d in pending)`next
      ensures Valid() && multiset(pending + free) == multiset(old(pending + free))
      ensures events == Later(old(events), now) && world == Run(Due(old(events), now), now, old(world))
      ensures forall m: nat, b: nat ::
                (m, b) in world.bits <==>
                || (exists k :: SetsLast(Due(old(events), now), k, m, b))
                || ((m, b) in old(world).bits &&
                    forall j | 0 <= j < |Due(old(events), now)| :: Due(old(events), now)[j].action != ClearBit(m, b))
    {
      hide ListsOk, Ordered, Distinct, Without, Apply, Due, Later, Run, SetsLast;
      ghost var due, later := Due(events, now), Later(events, now);
      while head != null && head.event.when <= now
        invariant Valid() && multiset(pending + free) == multiset(old(pending + free))
        invariant forall d | d in pending :: d in old(pending)
        invariant Run(Due(events, now), now, world) == Run(due, now, old(world)) && Later(events, now) == later
        decreases |pending|
      {
        var ev := head;
        LengthsAgree();
        ghost var before, free0 := pending, free;
        ServiceOne(events, now, world);
        world := Apply(ev.event, now, world);
        Unlink(null, ev, 0);
        Release(ev);
        MovedOver(before, free0, pending, ev);
        TailIn(before);
      }
      LengthsAgree();
      NoneDue(events, now, world);
      BitsAre(due, now, old(world));
    }
  }

  lemma FindIs(es: seq<Event>, id: nat, i: nat)
    requires i <= |es| && (forall k | 0 <= k < i :: es[k].id != id) && (i < |es| ==> es[i].id == id)
    ensures Find(es, id) == i
  {
    if i > 0 {
      FindIs(es[1..], id, i - 1);
    }
  }

  lemma FoundIs(es: seq<Event>, id: nat)
    ensures Find(es, id) < |es| <==> HasId(es, id)
  {
    var i := Find(es, id);
    if i < |es| {
      assert es[i] in es;
    }
  }

  /** A descriptor that moves from one list to the other stays one of all. */
  lemma MovedOver(pending: seq<Desc>, free: seq<Desc>, after: seq<Desc>, d: Desc)
    requires multiset(after) + multiset{d} == multiset(pending)
    ensures multiset(after + ([d] + free)) == multiset(pending + free)
  {
  }

  lemma TailIn(chain: seq<Desc>)
    requires chain != []
    ensures forall d | d in Without(chain, 0) :: d in chain
    ensures |Without(chain, 0)| < |chain|
  {
  }

  lemma ServiceOne(es: seq<Event>, now: int, w: World)
    requires es != [] && es[0].when <= now
    ensures Without(es, 0) == es[1..]
    ensures Run(Due(es, now), now, w) == Run(Due(es[1..], now), now, Apply(es[0], now, w))
    ensures Later(es, now) == Later(es[1..], now)
  {
    hide Apply;
    assert Due(es, now)[1..] == Due(es[1..], now);
  }

  lemma NoneDue(es: seq<Event>, now: int, w: World)
    requires es == [] || es[0].when > now
    ensures Due(es, now) == [] && Later(es, now) == es && Run(Due(es, now), now, w) == w
  {
  }

  lemma Conserved(chain: seq<Desc>, free: seq<Desc>, d: Desc, p: nat)
    requires p <= |chain|
    ensures multiset(chain[..p] + [d] + chain[p..]) == multiset(chain) + multiset{d}
    ensures free != [] && d == free[0] ==> multiset(chain[..p] + [d] + chain[p..] + free[1..]) == multiset(chain + free)
  {
    assert chain == chain[..p] + chain[p..];
    if free != [] {
      assert free == [free[0]] + free[1..];
    }
  }

  lemma DistinctMore(es: seq<Event>, n: nat)
    requires Distinct(es, n)
    ensures Distinct(es, n + 1)
  {
  }

  lemma FreshApart(a: seq<Desc>, d: Desc)
    requires Apart(a, []) && d !in a
    ensures Apart(a, [d])
  {
  }

  lemma ApartTail(a: seq<Desc>, b: seq<Desc>)
    requires Apart(a, b) && b != []
    ensures Apart(a, b[1..]) && b[0] !in a && b[0] !in b[1..]
  {
  }

  lemma PositionIs(es: seq<Event>, when: int, p: nat)
    requires p <= |es| && (forall k | 0 <= k < p :: es[k].when < when) && (p < |es| ==> es[p].when >= when)
    ensures Position(es, when) == p
  {
    if p > 0 {
      PositionIs(es[1..], when, p - 1);
    }
  }

  lemma Distinctly(a: seq<Desc>, b: seq<Desc>)
    requires Apart(a, b)
    ensures forall i, j | 0 <= i < j < |a| :: a[i] != a[j]
    ensures forall d | d in a :: d !in b
  {
  }
}
