/** `BusyThreadReadBuffer`: a worker puts, the busy thread gets.  `get` takes the
    mutex only inside `swap`; the model runs it one shared access at a time and
    lets the worker put between any two of its steps. */
module ReadDoubleBuffer {
  import opened Bytes
  import opened Wire
  import opened DoubleBuffer

  /** Where the busy thread stands in `get`, named by what it does next. */
  datatype Place =
    | Idle      // line 110: is there something in the read half?
    | Look      // line 131: is there something in the write half?
    | SwapIn    // line 134: swap
    | Take      // line 113 or 139: take one message
    | Drained   // line 126 or 150: the read half was emptied, reset the event
    | NoneLeft  // line 157: nothing found, reset the event

  datatype State = State(
    read: seq<Item>, write: seq<Item>, nRead: int, nWrite: int,
    ready: bool, place: Place, fatal: bool,
    // history
    put: seq<Item>, got: seq<Item>)

  const EMPTY := State([], [], 0, 0, false, Idle, false, [], [])

  datatype Action = Put(data: seq<Byte>) | Get

  /** `put`: one critical section. */
  function PutStep(s: State, data: seq<Byte>): (t: State)
  {
    if s.fatal then s else
    var x := Item(|s.put|, data);
    s.(write := s.write + [x], nWrite := s.nWrite + 1, ready := true, put := s.put + [x])
  }

  /** One step of `get`. */
  function GetStep(s: State): (t: State)
  {
    if s.fatal then s else
    match s.place
    case Idle => s.(place := if s.nRead != 0 then Take else Look)
    case Look => s.(place := if s.nWrite != 0 then SwapIn else NoneLeft)
    case SwapIn => s.(read := s.write, write := s.read, nRead := s.nWrite, nWrite := s.nRead, place := Take)
    case Take =>
      if s.read == [] || |s.read[0].data| > MAX_STRING then s.(fatal := true)
      else s.(read := s.read[1..], nRead := s.nRead - 1, got := s.got + [s.read[0]],
              place := if s.nRead == 1 then Drained else Idle)
    case Drained => s.(ready := false, place := Idle)
    case NoneLeft => s.(ready := false, place := Idle)
  }

  function Step(s: State, a: Action): (t: State) {
    match a
    case Put(data) => PutStep(s, data)
    case Get => GetStep(s)
  }

  function Run(s: State, actions: seq<Action>): (t: State)
    decreases |actions|
  {
    if actions == [] then s else Run(Step(s, actions[0]), actions[1..])
  }

  // -------------------------------------------------------------- the invariant

  predicate Valid(s: State) {
    && s.nRead == |s.read| && s.nWrite == |s.write|
    && s.got + s.read + s.write == s.put && Tagged(s.put)
    && match s.place
       case Idle => true
       case Look => s.read == []
       case SwapIn => s.read == [] && s.write != []
       case Take => s.read != []
       case Drained => s.read == []
       case NoneLeft => s.read == []
  }

  /** The process ends only on a message over 256K. */
  predicate EndsOnlyOversized(s: State) {
    s.fatal ==> s.read != [] && |s.read[0].data| > MAX_STRING
  }

  lemma ValidPut(s: State, data: seq<Byte>)
    requires Valid(s)
    ensures Valid(PutStep(s, data))
  {
    var x := Item(|s.put|, data);
    assert s.got + s.read + (s.write + [x]) == (s.got + s.read + s.write) + [x];
  }

  lemma ValidGet(s: State)
    requires Valid(s)
    ensures Valid(GetStep(s))
  {
    match s.place
    case SwapIn => assert s.got + s.write + s.read == s.got + s.read + s.write;
    case Take => assert s.got + [s.read[0]] + s.read[1..] == s.got + s.read;
    case _ =>
  }

  lemma {:induction false} ValidRun(s: State, actions: seq<Action>)
    requires Valid(s) && EndsOnlyOversized(s)
    ensures Valid(Run(s, actions)) && EndsOnlyOversized(Run(s, actions))
    decreases |actions|
  {
    hide Valid;
    if actions != [] {
      ValidStep(s, actions[0]);
      ValidRun(Step(s, actions[0]), actions[1..]);
    }
  }

  lemma ValidStep(s: State, a: Action)
    requires Valid(s) && EndsOnlyOversized(s)
    ensures Valid(Step(s, a)) && EndsOnlyOversized(Step(s, a))
  {
    match a
    case Put(data) => ValidPut(s, data);
    case Get => ValidGet(s);
  }

  // --------------------------------------------------------------- main results

  /** In every interleaving messages are taken in the order they were put, none
      lost or duplicated; each counter is its half's length; and the process ends
      only on a message over 256K, never on an empty half. */
  lemma FifoAlways(actions: seq<Action>)
    ensures var s := Run(EMPTY, actions);
      && s.got + s.read + s.write == s.put
      && s.nRead == |s.read| && s.nWrite == |s.write|
      && (s.fatal ==> s.read != [] && |s.read[0].data| > MAX_STRING)
  {
    ValidRun(EMPTY, actions);
  }

  lemma RunCons(s: State, a: Action, rest: seq<Action>)
    ensures Run(s, [a] + rest) == Run(Step(s, a), rest)
  {
    assert ([a] + rest)[1..] == rest;
  }

  lemma {:induction false} RunConcat(s: State, a: seq<Action>, b: seq<Action>)
    ensures Run(s, a + b) == Run(Run(s, a), b)
    decreases |a|
  {
    hide Step;
    if a == [] {
      assert a + b == b;
    } else {
      assert a + b == [a[0]] + (a[1..] + b);
      RunCons(s, a[0], a[1..] + b);
      RunConcat(Step(s, a[0]), a[1..], b);
    }
  }

  /** The event is not a reliable sign of waiting messages.  A message put while
      the only other one is being taken waits with the event down. */
  lemma EventCanBeMissed(m: seq<Byte>, n: seq<Byte>)
    requires |m| <= MAX_STRING
    ensures var upToReset := [Get, Get, Get, Get];
      var s := Run(EMPTY, [Put(m)] + upToReset + [Put(n)] + [Get]);
      !s.ready && s.place.Idle? && s.write == [Item(1, n)]
  {
    hide Run, Step;
    var x, y := Item(0, m), Item(1, n);
    var upToReset := [Get, Get, Get, Get];
    var s1 := State([], [x], 0, 1, true, Idle, false, [x], []);
    var s5 := State([], [], 0, 0, true, Drained, false, [x], [x]);
    var s6 := State([], [y], 0, 1, true, Drained, false, [x, y], [x]);
    assert [] + [x] == [x] && [] + [y] == [y] && [x] + [y] == [x, y];
    PutOne(EMPTY, m);
    RunConcat(EMPTY, [Put(m)], upToReset);
    SwapAndTakeOnly(s1, s5);
    RunConcat(EMPTY, [Put(m)] + upToReset, [Put(n)]);
    PutOne(s5, n);
    RunConcat(EMPTY, [Put(m)] + upToReset + [Put(n)], [Get]);
    ResetOnly(s6);
  }

  lemma ResetOnly(s: State)
    requires !s.fatal && s.place.Drained?
    ensures Run(s, [Get]) == s.(ready := false, place := Idle)
  {
    RunCons(s, Get, []);
  }

  /** The same with a single message there, up to the reset. */
  lemma SwapAndTakeOnly(s: State, t: State)
    requires !s.fatal && s.place.Idle? && s.nRead == 0 && s.read == [] && s.nWrite == |s.write| == 1
    requires |s.write[0].data| <= MAX_STRING
    requires t == s.(read := [], write := [], nRead := 0, nWrite := 0, got := s.got + s.write, place := Drained)
    ensures Run(s, [Get, Get, Get, Get]) == t
  {
    RunCons(s, Get, [Get, Get, Get]);
    RunCons(s.(place := Look), Get, [Get, Get]);
    RunCons(s.(place := SwapIn), Get, [Get]);
    assert [s.write[0]] == s.write && s.write[1..] == [];
    RunCons(s.(read := s.write, write := [], nRead := 1, nWrite := 0, place := Take), Get, []);
  }

  /** Nor does it take a put inside a `get`: with two messages in the read half and a
      third put behind them, the second of two plain `get`s resets the event over it. */
  lemma EventMissedBetweenGets(m: seq<Byte>, n: seq<Byte>, o: seq<Byte>)
    requires |m| <= MAX_STRING && |n| <= MAX_STRING
    ensures var firstGet, secondGet := [Get, Get, Get, Get], [Get, Get, Get];
      var s := Run(EMPTY, [Put(m), Put(n)] + firstGet + [Put(o)] + secondGet);
      !s.ready && s.place.Idle? && s.got == [Item(0, m), Item(1, n)] && s.write == [Item(2, o)]
  {
    hide Run, Step;
    var x, y, z := Item(0, m), Item(1, n), Item(2, o);
    var firstGet, secondGet := [Get, Get, Get, Get], [Get, Get, Get];
    var s2 := State([], [x, y], 0, 2, true, Idle, false, [x, y], []);
    var s6 := State([y], [], 1, 0, true, Idle, false, [x, y], [x]);
    var s7 := State([y], [z], 1, 1, true, Idle, false, [x, y, z], [x]);
    var s9 := State([], [z], 0, 1, true, Drained, false, [x, y, z], [x, y]);
    PutTwice(m, n);
    RunConcat(EMPTY, [Put(m), Put(n)], firstGet);
    SwapAndTake(s2, s6);
    RunConcat(EMPTY, [Put(m), Put(n)] + firstGet, [Put(o)]);
    PutOne(s6, o);
    assert [] + [z] == [z] && [x, y] + [z] == [x, y, z];
    RunConcat(EMPTY, [Put(m), Put(n)] + firstGet + [Put(o)], secondGet);
    assert [x] + [y] == [x, y];
    TakeLast(s7, s9);
  }

  lemma PutOne(s: State, data: seq<Byte>)
    requires !s.fatal
    ensures var x := Item(|s.put|, data);
      Run(s, [Put(data)]) == s.(write := s.write + [x], nWrite := s.nWrite + 1, ready := true, put := s.put + [x])
  {
    RunCons(s, Put(data), []);
  }

  lemma PutTwice(m: seq<Byte>, n: seq<Byte>)
    ensures var x, y := Item(0, m), Item(1, n);
      Run(EMPTY, [Put(m), Put(n)]) == State([], [x, y], 0, 2, true, Idle, false, [x, y], [])
  {
    hide Run, Step;
    var x, y := Item(0, m), Item(1, n);
    assert [Put(m), Put(n)] == [Put(m)] + [Put(n)];
    RunConcat(EMPTY, [Put(m)], [Put(n)]);
    PutOne(EMPTY, m);
    assert [] + [x] == [x] && [x] + [y] == [x, y];
    PutOne(State([], [x], 0, 1, true, Idle, false, [x], []), n);
  }

  /** A `get` that finds the read half empty: look, look again, swap, take. */
  lemma SwapAndTake(s: State, t: State)
    requires !s.fatal && s.place.Idle? && s.nRead == 0 && s.read == [] && s.nWrite == |s.write| >= 2
    requires |s.write[0].data| <= MAX_STRING
    requires t == s.(read := s.write[1..], write := [], nRead := s.nWrite - 1, nWrite := 0,
                     got := s.got + [s.write[0]])
    ensures Run(s, [Get, Get, Get, Get]) == t
  {
    RunCons(s, Get, [Get, Get, Get]);
    RunCons(s.(place := Look), Get, [Get, Get]);
    RunCons(s.(place := SwapIn), Get, [Get]);
    RunCons(s.(read := s.write, write := [], nRead := s.nWrite, nWrite := 0, place := Take), Get, []);
  }

  /** A `get` that empties the read half: look, take, reset. */
  lemma TakeLast(s: State, drained: State)
    requires !s.fatal && s.place.Idle? && s.nRead == 1 && |s.read| == 1 && |s.read[0].data| <= MAX_STRING
    requires drained == s.(read := [], nRead := 0, got := s.got + s.read, place := Drained)
    ensures Run(s, [Get, Get, Get]) == drained.(ready := false, place := Idle)
  {
    RunCons(s, Get, [Get, Get]);
    RunCons(s.(place := Take), Get, [Get]);
    assert [s.read[0]] == s.read && s.read[1..] == [];
    RunCons(drained, Get, []);
  }

  /** Messages that wait are announced. */
  predicate Announced(s: State) {
    s.read + s.write != [] ==> s.ready
  }

  /** The event is about to be reset over a message in the write half. */
  predicate ResetsBlindly(s: State, a: Action) {
    a.Get? && !s.fatal && (s.place.Drained? || s.place.NoneLeft?) && s.write != []
  }

  predicate AlwaysAnnounced(s: State, actions: seq<Action>)
    decreases |actions|
  {
    Announced(s) && (actions != [] ==> AlwaysAnnounced(Step(s, actions[0]), actions[1..]))
  }

  predicate NeverBlind(s: State, actions: seq<Action>)
    decreases |actions|
  {
    actions != [] ==> !ResetsBlindly(s, actions[0]) && NeverBlind(Step(s, actions[0]), actions[1..])
  }

  lemma AnnouncedStep(s: State, a: Action)
    requires Valid(s) && Announced(s)
    ensures Announced(Step(s, a)) <==> !ResetsBlindly(s, a)
  {
  }

  lemma {:induction false} AnnouncedRun(s: State, actions: seq<Action>)
    requires Valid(s) && EndsOnlyOversized(s) && Announced(s)
    ensures AlwaysAnnounced(s, actions) <==> NeverBlind(s, actions)
    decreases |actions|
  {
    hide Valid, Step, Announced, ResetsBlindly;
    if actions != [] {
      var t := Step(s, actions[0]);
      AnnouncedStep(s, actions[0]);
      ValidStep(s, actions[0]);
      if Announced(t) {
        AnnouncedRun(t, actions[1..]);
      } else {
        NotAnnounced(t, actions[1..]);
      }
    }
  }

  lemma NotAnnounced(s: State, actions: seq<Action>)
    requires !Announced(s)
    ensures !AlwaysAnnounced(s, actions)
  {
  }

  /** The event is up whenever a message waits, all through a run, exactly in the runs
      where no `get` resets it (lines 126, 150 and 157) while the write half holds
      a message. */
  lemma EventExactly(actions: seq<Action>)
    ensures AlwaysAnnounced(EMPTY, actions) <==> NeverBlind(EMPTY, actions)
  {
    hide Step;
    AnnouncedRun(EMPTY, actions);
  }

  // ----------------------------------------------- nothing refused, no stalling

  function AskedFor(actions: seq<Action>): (ds: seq<seq<Byte>>) {
    if actions == [] then []
    else (if actions[0].Put? then [actions[0].data] else []) + AskedFor(actions[1..])
  }

  lemma StepPuts(s: State, a: Action)
    ensures !s.fatal ==> DataOf(Step(s, a).put) == DataOf(s.put) + if a.Put? then [a.data] else []
    ensures s.fatal ==> Step(s, a) == s
  {
    assert DataOf(s.put) + [] == DataOf(s.put);
    if a.Put? {
      DataOfSnoc(s.put, Item(|s.put|, a.data));
    }
  }

  lemma {:induction false} RunPuts(s: State, actions: seq<Action>)
    ensures var t := Run(s, actions);
      && DataOf(t.put) <= DataOf(s.put) + AskedFor(actions)
      && (!t.fatal ==> DataOf(t.put) == DataOf(s.put) + AskedFor(actions))
    decreases |actions|
  {
    hide Step;
    if actions == [] {
      assert DataOf(s.put) + [] == DataOf(s.put);
    } else {
      var a, t := actions[0], Step(s, actions[0]);
      hide DataOf;
      StepPuts(s, a);
      RunPuts(t, actions[1..]);
      if s.fatal {
        FatalStays(s, actions);
      } else {
        var now, later := if a.Put? then [a.data] else [], AskedFor(actions[1..]);
        assert AskedFor(actions) == now + later;
        assert DataOf(s.put) + now + later == DataOf(s.put) + (now + later);
      }
    }
  }

  lemma {:induction false} FatalStays(s: State, actions: seq<Action>)
    requires s.fatal
    ensures Run(s, actions) == s
    decreases |actions|
  {
    if actions != [] {
      FatalStays(s, actions[1..]);
    }
  }

  /** Every message asked for was put, in that order, as long as the process runs. */
  lemma EveryPutCounts(actions: seq<Action>)
    ensures var s := Run(EMPTY, actions);
      DataOf(s.put) <= AskedFor(actions) && (!s.fatal ==> DataOf(s.put) == AskedFor(actions))
  {
    hide Step;
    RunPuts(EMPTY, actions);
    assert [] + AskedFor(actions) == AskedFor(actions);
  }

  /** How many steps of `get` at most until it takes a message, when there is one. */
  function Rank(s: State): (n: nat) {
    match s.place
    case Idle => if s.nRead != 0 then 2 else 4
    case Look => 3
    case SwapIn => 2
    case Take => 1
    case Drained => 5
    case NoneLeft => 5
  }

  function Gets(n: nat): (actions: seq<Action>) {
    if n == 0 then [] else [Get] + Gets(n - 1)
  }

  lemma StepNearer(s: State)
    requires Valid(s) && !s.fatal && s.read + s.write != []
    ensures var t := GetStep(s);
      || t.fatal || (s.read != [] && t.got == s.got + [s.read[0]])
      || (t.got == s.got && t.read + t.write != [] && Rank(t) < Rank(s))
  {
  }

  lemma GotGrows(s: State)
    ensures |s.got| <= |GetStep(s).got|
  {
  }

  lemma {:induction false} GetsKeep(s: State, n: nat)
    ensures |s.got| <= |Run(s, Gets(n)).got|
    decreases n
  {
    hide GetStep;
    if n != 0 {
      RunCons(s, Get, Gets(n - 1));
      GotGrows(s);
      GetsKeep(GetStep(s), n - 1);
    }
  }

  lemma {:induction false} GetsTake(s: State, n: nat)
    requires Valid(s) && !s.fatal && s.read + s.write != [] && Rank(s) <= n
    ensures var t := Run(s, Gets(n)); t.fatal || |t.got| > |s.got|
    decreases n
  {
    hide Valid, GetStep, Rank;
    var t := GetStep(s);
    RankBound(s);
    ValidGet(s);
    StepNearer(s);
    RunCons(s, Get, Gets(n - 1));
    if t.fatal {
      FatalStays(t, Gets(n - 1));
    } else if t.got == s.got {
      GetsTake(t, n - 1);
    } else {
      GetsKeep(t, n - 1);
    }
  }

  lemma RankBound(s: State)
    ensures 1 <= Rank(s) <= 5
  {
  }

  /** Five steps of `get` take a message, from wherever the busy thread stands in whatever
      interleaving, if one is there; or end on an oversized one. */
  lemma WaitingMessagesAreTaken(actions: seq<Action>)
    requires var s := Run(EMPTY, actions); !s.fatal && s.read + s.write != []
    ensures var s := Run(EMPTY, actions); var t := Run(s, Gets(5));
      t.fatal || |t.got| > |s.got|
  {
    hide Valid, Step, Gets;
    var s := Run(EMPTY, actions);
    EmptyIsValid();
    ValidRun(EMPTY, actions);
    RankBound(s);
    GetsTake(s, 5);
  }

  lemma EmptyIsValid()
    ensures Valid(EMPTY) && EndsOnlyOversized(EMPTY)
  {
  }

  // ------------------------------------------------------------- the object

  /** The shared object, each half as the bytes it stores; `get` runs one step at a
      time, so that puts can come between. */
  class BusyThreadReadBuffer {
    var readBuf: seq<Byte>
    var writeBuf: seq<Byte>
    var nReadBufMsgs: int
    var nWriteBufMsgs: int
    var dataReady: bool
    var place: Place
    ghost var view: State

    ghost predicate Valid()
      reads this
    {
      && !view.fatal
      && Holds(readBuf, view.read) && Holds(writeBuf, view.write)
      && nReadBufMsgs == view.nRead && nWriteBufMsgs == view.nWrite
      && dataReady == view.ready && place == view.place
    }

    constructor ()
      ensures Valid() && view == EMPTY
    {
      readBuf, writeBuf := [], [];
      nReadBufMsgs, nWriteBufMsgs, dataReady, place := 0, 0, false, Idle;
      view := EMPTY;
    }

    method Put(data: seq<Byte>)
      requires Valid() && |data| < TWO32
      modifies this
      ensures Valid() && view == PutStep(old(view), data)
    {
      HoldsAppend(writeBuf, view.write, Item(|view.put|, data));
      writeBuf := writeBuf + PutString(data);
      nWriteBufMsgs := nWriteBufMsgs + 1;
      dataReady := true;
      view := PutStep(view, data);
    }

    method Swap()
      modifies this`readBuf, this`writeBuf, this`nReadBufMsgs, this`nWriteBufMsgs
      ensures readBuf == old(writeBuf) && writeBuf == old(readBuf)
      ensures nReadBufMsgs == old(nWriteBufMsgs) && nWriteBufMsgs == old(nReadBufMsgs)
    {
      readBuf, writeBuf := writeBuf, readBuf;
      nReadBufMsgs, nWriteBufMsgs := nWriteBufMsgs, nReadBufMsgs;
    }

    /** Lines 113-123 and 139-147: the message goes to `out`, with its length in
        front if `asString`.  `ok` is false when the process ends here. */
    method TakeOne(out: seq<Byte>, asString: bool) returns (ok: bool, out': seq<Byte>)
      requires Valid() && place.Take?
      modifies this
      ensures view == GetStep(old(view)) && ok == !view.fatal
      ensures ok ==> Valid() && old(view).read != [] && |old(view).read[0].data| < TWO32
      ensures ok ==> var data := old(view).read[0].data;
                     out' == out + if asString then PutString(data) else data
    {
      hide Holds, GetString;
      HoldsTake(readBuf, view.read);
      match GetString(readBuf)
      case Got(value, rest) =>
        ok, readBuf := true, rest;
        out' := out + if asString then PutString(value) else value;
        nReadBufMsgs := nReadBufMsgs - 1;
        place := if nReadBufMsgs == 0 then Drained else Idle;
        view := GetStep(view);
      case _ =>
        ok, out' := false, out;
        view := GetStep(view);
    }

    /** Any other step of `get`. */
    method Advance()
      requires Valid() && !place.Take?
      modifies this
      ensures Valid() && view == GetStep(old(view))
    {
      match place {
        case Idle => place := if nReadBufMsgs != 0 then Take else Look;
        case Look => place := if nWriteBufMsgs != 0 then SwapIn else NoneLeft;
        case SwapIn => Swap(); place := Take;
        case Drained => dataReady := false; place := Idle;
        case NoneLeft => dataReady := false; place := Idle;
      }
      view := GetStep(view);
    }
  }
}
