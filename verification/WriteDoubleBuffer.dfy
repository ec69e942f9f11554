/** `BusyThreadWriteBuffer`: the busy thread puts, one worker gets, and the two
    halves are exchanged under a mutex.  The worker's `get` takes that mutex
    only inside `swap`, so the model runs it one shared access at a time and lets
    the busy thread put between any two of its steps. */
module WriteDoubleBuffer {
  import opened Bytes
  import opened Wire
  import opened DoubleBuffer

  /** Where the worker stands in `get`, named by what it does next. */
  datatype Place =
    | Idle       // line 185: take from the read half, or go on when it is empty
    | Reset      // line 199: reset the event
    | Test       // line 201: is the write half empty?
    | SwapEmpty  // line 204: swap although it was found empty, to push `consumed`
    | Waiting    // line 207: wait for the event
    | Retest     // line 220: is the write half empty again?
    | SwapBack   // line 220: swap once more if so
    | SwapIn     // line 224: swap
    | Take       // line 226: take one message

  /** Whether some put landed in each of the four gaps of the current `get`:
      between 201 and 204, 204 and 220, 220 and its swap, that swap and 224.
      `ahead` in the state is how many messages the swap at 220 moved back. */
  datatype Gaps = Gaps(early: bool, waiting: bool, retest: bool, late: bool)

  datatype State = State(
    read: seq<Item>, write: seq<Item>,
    nRead: int, nWrite: int,
    readConsumed: int, writeConsumed: int,
    arrived: bool, place: Place, fatal: bool,
    // history
    put: seq<Item>, got: seq<Item>, credited: int, gaps: Gaps, ahead: nat, raced: bool)

  const NO_GAPS := Gaps(false, false, false, false)

  const EMPTY := State([], [], 0, 0, 0, 0, false, Idle, false, [], [], 0, NO_GAPS, 0, false)

  datatype Action = Put(data: seq<Byte>) | PutEof | Work(other: bool)

  // ------------------------------------------------------------ the steps

  function Enqueue(s: State, data: seq<Byte>): (t: State)
  {
    var x := Item(|s.put|, data);
    s.(write := s.write + [x], nWrite := s.nWrite + 1, put := s.put + [x],
       gaps := Gaps(s.gaps.early || s.place.SwapEmpty?,
                    s.gaps.waiting || s.place.Waiting? || s.place.Retest?,
                    s.gaps.retest || s.place.SwapBack?,
                    s.gaps.late || s.place.SwapIn?))
  }

  /** `put`: collect what the worker consumed, then queue a non-empty message and
      raise the event if the write half was empty. */
  function PutStep(s: State, data: seq<Byte>): (t: State)
  {
    if s.fatal then s else
    var c := s.(credited := s.credited - s.writeConsumed, writeConsumed := 0);
    if data == [] then c
    else Enqueue(c, data).(arrived := s.arrived || s.nWrite == 0)
  }

  /** `put_eof`: an empty message; the event is always raised. */
  function PutEofStep(s: State): (t: State)
  {
    if s.fatal then s else Enqueue(s, []).(arrived := true)
  }

  function Swapped(s: State): (t: State)
  {
    s.(read := s.write, write := s.read, nRead := s.nWrite, nWrite := s.nRead,
       readConsumed := s.writeConsumed, writeConsumed := s.readConsumed)
  }

  /** Lines 187-196 and 226-234: `buffer_get_string` ends the process on an empty
      half and on a message over 256K. */
  function Popped(s: State): (t: State)
  {
    if s.read == [] || |s.read[0].data| > MAX_STRING then s.(fatal := true)
    else s.(read := s.read[1..], nRead := s.nRead - 1, got := s.got + [s.read[0]],
            readConsumed := s.readConsumed - |s.read[0].data|, place := Idle)
  }

  /** A put between 201 and 204 followed by one between 204 and 220, or by one
      on each side of the swap at 220. */
  predicate OutOfOrder(g: Gaps) {
    g.early && (g.waiting || (g.retest && g.late))
  }

  /** One step of `get`.  While waiting, `other` says that one of the caller's
      own events fired; the data event is first in the array, so it wins. */
  function WorkStep(s: State, other: bool): (t: State)
  {
    if s.fatal then s else
    match s.place
    case Idle => if s.nRead != 0 then Popped(s) else s.(place := Reset)
    case Reset => s.(arrived := false, place := Test, gaps := NO_GAPS)
    case Test => s.(place := if s.nWrite == 0 then SwapEmpty else SwapIn)
    case SwapEmpty => Swapped(s).(place := Waiting)
    case Waiting =>
      if s.arrived then s.(arrived := false, place := Retest)
      else if other then s.(place := Idle)
      else s
    case Retest => s.(place := if s.nWrite == 0 then SwapBack else SwapIn)
    case SwapBack => Swapped(s).(place := SwapIn, ahead := |s.read|)
    case SwapIn => Swapped(s).(place := Take, raced := s.raced || OutOfOrder(s.gaps))
    case Take => Popped(s)
  }

  function Step(s: State, a: Action): (t: State)
  {
    match a
    case Put(data) => PutStep(s, data)
    case PutEof => PutEofStep(s)
    case Work(other) => WorkStep(s, other)
  }

  function Run(s: State, actions: seq<Action>): (t: State)
    decreases |actions|
  {
    if actions == [] then s else Run(Step(s, actions[0]), actions[1..])
  }

  // --------------------------------------------- nothing lost, nothing twice

  ghost predicate Accounted(s: State) {
    && s.nRead == |s.read| && s.nWrite == |s.write|
    && s.readConsumed <= 0 && s.writeConsumed <= 0
    && Tagged(s.put)
    && Balanced(s.got, s.read, s.write, s.put)
    && s.credited - s.readConsumed - s.writeConsumed == Payload(s.got)
  }

  /** Every message put is delivered or in one of the halves, exactly once. */
  ghost predicate Balanced(got: seq<Item>, read: seq<Item>, write: seq<Item>, put: seq<Item>) {
    multiset(got + read + write) == multiset(put)
  }

  lemma AccountedEnqueue(s: State, data: seq<Byte>)
    requires Accounted(s)
    ensures Accounted(Enqueue(s, data))
  {
    var x := Item(|s.put|, data);
    assert s.got + s.read + (s.write + [x]) == (s.got + s.read + s.write) + [x];
  }

  lemma AccountedSwap(s: State)
    requires Accounted(s)
    ensures Accounted(Swapped(s))
  {
  }

  lemma AccountedPop(s: State)
    requires Accounted(s)
    ensures Accounted(Popped(s))
  {
    hide Balanced, Payload;
    if s.read != [] && |s.read[0].data| <= MAX_STRING {
      var t := Popped(s);
      BalancedPop(s.got, s.read, s.write, s.put);
      PayloadSnoc(s.got, s.read[0]);
      assert Balanced(t.got, t.read, t.write, t.put);
    }
  }

  lemma BalancedPop(got: seq<Item>, read: seq<Item>, write: seq<Item>, put: seq<Item>)
    requires Balanced(got, read, write, put) && read != []
    ensures Balanced(got + [read[0]], read[1..], write, put)
  {
    assert got + [read[0]] + read[1..] + write == got + read + write;
  }

  lemma AccountedPut(s: State, data: seq<Byte>)
    requires Accounted(s)
    ensures Accounted(PutStep(s, data))
  {
    AccountedEnqueue(s.(credited := s.credited - s.writeConsumed, writeConsumed := 0), data);
  }

  lemma AccountedStep(s: State, a: Action)
    requires Accounted(s)
    ensures Accounted(Step(s, a))
  {
    match a
    case Put(data) => AccountedPut(s, data);
    case PutEof => AccountedEnqueue(s, []);
    case Work(other) => AccountedWork(s, other);
  }

  lemma AccountedWork(s: State, other: bool)
    requires Accounted(s)
    ensures Accounted(WorkStep(s, other))
  {
    match s.place
    case Idle => AccountedPop(s);
    case SwapEmpty => AccountedSwap(s);
    case SwapBack => AccountedSwap(s);
    case SwapIn => AccountedSwap(s);
    case Take => AccountedPop(s);
    case _ =>
  }

  // ------------------------------------ when a message waits, and for whom

  /** What the code relies on at each place: which half may hold messages, and
      that the event is up whenever the worker sleeps with work pending. */
  predicate Placed(s: State)
  {
    var g := s.gaps;
    match s.place
    case Idle => true
    case Reset => s.read == []
    case Test => s.read == [] && g == NO_GAPS && (s.write == [] ==> !s.arrived)
    case SwapEmpty => s.read == [] && g.early == (s.write != []) == s.arrived
                      && !g.waiting && !g.retest && !g.late
    case Waiting => g.early == (s.read != []) && g.waiting == (s.write != [])
                    && s.arrived == (g.early || g.waiting) && !g.retest && !g.late
    case Retest => g.early == (s.read != []) && g.waiting == (s.write != [])
                   && (g.early || g.waiting) && !g.retest && !g.late
    case SwapBack => s.read != [] && g.early && !g.waiting
                     && g.retest == (s.write != []) && !g.late
    case SwapIn => s.write != []
    case Take => s.read != []
  }

  lemma PlacedPut(s: State, data: seq<Byte>)
    requires Accounted(s) && Placed(s)
    ensures Placed(PutStep(s, data))
  {
  }

  lemma PlacedPutEof(s: State)
    requires Accounted(s) && Placed(s)
    ensures Placed(PutEofStep(s))
  {
  }

  lemma PlacedWork(s: State, other: bool)
    requires Accounted(s) && Placed(s)
    ensures Placed(WorkStep(s, other))
  {
  }

  lemma PlacedStep(s: State, a: Action)
    requires Accounted(s) && Placed(s)
    ensures Placed(Step(s, a))
  {
    match a
    case Put(data) => PlacedPut(s, data);
    case PutEof => PlacedPutEof(s);
    case Work(other) => PlacedWork(s, other);
  }

  /** The process ends only on a message over 256K, never on an empty half. */
  predicate EndsOnlyOversized(s: State) {
    s.fatal ==> s.read != [] && |s.read[0].data| > MAX_STRING
  }

  lemma EndsOnlyOversizedStep(s: State, a: Action)
    requires Accounted(s) && Placed(s) && EndsOnlyOversized(s)
    ensures EndsOnlyOversized(Step(s, a))
  {
  }

  // ------------------------------------------------------- order of delivery

  /** The messages in the order they would be delivered if no more swaps came. */
  function Line(s: State): (l: seq<Item>) {
    s.got + s.read + s.write
  }

  /** Between the swap at 220 and the one at 224 the halves are exchanged: the
      first `ahead` messages of the write half come before the read half. */
  predicate Crossed(s: State) {
    && s.gaps.early && !s.gaps.waiting && s.gaps.retest == (s.read != [])
    && 0 < s.ahead <= |s.write| && s.gaps.late == (s.ahead < |s.write|)
    && s.got + s.write[..s.ahead] + s.read + s.write[s.ahead..] == s.put
  }

  predicate Straight(s: State) {
    && Line(s) == s.put
    && (s.place.SwapIn? ==> s.gaps.early == (s.read != []) && (s.gaps.early ==> s.gaps.waiting))
  }

  predicate Orderly(s: State) {
    Straight(s) || (s.place.SwapIn? && Crossed(s))
  }

  /** How much of the line no later swap can move. */
  function Frozen(s: State): (n: nat) {
    |s.got| + if s.place.Idle? || s.place.Take? then |s.read| else 0
  }

  /** The message at `i` will be delivered before an older one, at `j`. */
  predicate OvertakenAt(line: seq<Item>, frozen: nat, i: nat, j: nat) {
    i < j < |line| && i < frozen && line[i].id > line[j].id
  }

  ghost predicate Overtaken(line: seq<Item>, frozen: nat) {
    exists i: nat, j: nat :: OvertakenAt(line, frozen, i, j)
  }

  ghost predicate Ordering(s: State) {
    if s.raced then Overtaken(Line(s), Frozen(s)) else Orderly(s)
  }

  lemma OrderEnqueue(s: State, data: seq<Byte>)
    requires Ordering(s)
    ensures Ordering(Enqueue(s, data))
  {
    var t := Enqueue(s, data);
    assert Line(t) == Line(s) + [Item(|s.put|, data)];
    if s.raced {
      var i: nat, j: nat :| OvertakenAt(Line(s), Frozen(s), i, j);
      assert OvertakenAt(Line(t), Frozen(t), i, j);
    } else if !Straight(s) {
      assert t.write[..s.ahead] == s.write[..s.ahead];
      assert t.write[s.ahead..] == s.write[s.ahead..] + [Item(|s.put|, data)];
    }
  }

  lemma OrderPop(s: State)
    requires Ordering(s) && (s.place.Idle? || s.place.Take?)
    ensures Ordering(Popped(s))
  {
    var t := Popped(s);
    assert Line(t) == Line(s);
    if s.raced {
      var i: nat, j: nat :| OvertakenAt(Line(s), Frozen(s), i, j);
      assert OvertakenAt(Line(t), Frozen(t), i, j);
    }
  }

  /** What was overtaken by a delivered message stays overtaken by it. */
  lemma OvertakenSwap(s: State, p: Place)
    requires Overtaken(Line(s), Frozen(s)) && !s.place.Idle? && !s.place.Take?
    ensures var t := Swapped(s).(place := p); Overtaken(Line(t), Frozen(t))
  {
    var t := Swapped(s).(place := p);
    var i: nat, j: nat :| OvertakenAt(Line(s), Frozen(s), i, j);
    var r, w := |s.got| + |s.read|, |s.write|;
    var k := if j < |s.got| then j else if j < r then j + w else j - |s.read|;
    assert Line(t)[k] == Line(s)[j];
    assert OvertakenAt(Line(t), Frozen(t), i, k);
  }

  /** The swap at 204, taken with nothing to read. */
  lemma StraightSwapEmpty(s: State)
    requires Line(s) == s.put && s.read == []
    ensures Line(Swapped(s)) == s.put
  {
    assert s.got + [] + s.write == s.got + s.write + [];
  }

  /** The swap at 220 crosses the two halves, to be put right at 224. */
  lemma CrossedSwapBack(s: State)
    requires s.place.SwapBack? && Placed(s) && Straight(s)
    ensures Crossed(WorkStep(s, false)) || s.fatal
  {
    var t := WorkStep(s, false);
    assert !s.fatal ==> t.write[..t.ahead] == s.read && t.write[t.ahead..] == [];
  }

  /** The swap at 224 from straight halves is in order unless both held something;
      then the first message it delivers is younger than one left behind. */
  lemma OrderSwapInStraight(s: State)
    requires Placed(s) && s.place.SwapIn? && Straight(s) && Tagged(s.put)
    ensures var t := Swapped(s).(place := Take);
            if OutOfOrder(s.gaps) then Overtaken(Line(t), Frozen(t)) else Line(t) == t.put
  {
    var t := Swapped(s).(place := Take);
    if s.gaps.early {
      var g, r := |s.got|, |s.read|;
      assert Line(s)[g] == s.read[0] && Line(s)[g + r] == s.write[0];
      assert Line(t)[g] == s.write[0] && Line(t)[g + |s.write|] == s.read[0];
      assert OvertakenAt(Line(t), Frozen(t), g, g + |s.write|);
    } else {
      StraightSwapEmpty(s);
    }
  }

  /** The swap at 224 from crossed halves puts them right, unless puts came on
      both sides of the swap at 220. */
  lemma OrderSwapInCrossed(s: State)
    requires s.place.SwapIn? && Crossed(s) && Tagged(s.put)
    ensures var t := Swapped(s).(place := Take);
            if OutOfOrder(s.gaps) then Overtaken(Line(t), Frozen(t)) else Line(t) == t.put
  {
    var t := Swapped(s).(place := Take);
    var g, k := |s.got|, s.ahead;
    var front, back := s.write[..k], s.write[k..];
    assert s.write == front + back;
    if s.gaps.retest && s.gaps.late {
      assert s.put[g + k] == s.read[0] && s.put[g + k + |s.read|] == back[0];
      assert Line(t)[g + k] == back[0] && Line(t)[g + |s.write|] == s.read[0];
      assert OvertakenAt(Line(t), Frozen(t), g + k, g + |s.write|);
    } else if s.gaps.retest {
      assert back == [];
    }
  }

  lemma OrderSwapIn(s: State)
    requires Placed(s) && s.place.SwapIn? && Ordering(s) && Tagged(s.put)
    ensures Ordering(WorkStep(s, false))
  {
    if s.raced {
      OvertakenSwap(s, Take);
    } else if Straight(s) {
      OrderSwapInStraight(s);
    } else {
      OrderSwapInCrossed(s);
    }
  }

  lemma OrderSwapEmpty(s: State)
    requires Placed(s) && s.place.SwapEmpty? && Ordering(s)
    ensures Ordering(WorkStep(s, false))
  {
    if s.raced {
      OvertakenSwap(s, Waiting);
    } else {
      StraightSwapEmpty(s);
    }
  }

  lemma OrderSwapBack(s: State)
    requires Placed(s) && s.place.SwapBack? && Ordering(s)
    ensures Ordering(WorkStep(s, false))
  {
    if s.raced {
      OvertakenSwap(s, SwapIn);
    } else {
      CrossedSwapBack(s);
    }
  }

  /** The steps that move no message. */
  lemma OrderElsewhere(s: State, other: bool)
    requires Placed(s) && Accounted(s) && Ordering(s)
    requires s.place.Idle? ==> s.nRead == 0
    requires !s.place.SwapEmpty? && !s.place.SwapBack? && !s.place.SwapIn? && !s.place.Take?
    ensures Ordering(WorkStep(s, other))
  {
    var t := WorkStep(s, other);
    assert Line(t) == Line(s);
    if s.raced {
      var i: nat, j: nat :| OvertakenAt(Line(s), Frozen(s), i, j);
      assert OvertakenAt(Line(t), Frozen(t), i, j);
    }
  }

  lemma OrderWork(s: State, other: bool)
    requires Placed(s) && Accounted(s) && Ordering(s)
    ensures Ordering(WorkStep(s, other))
  {
    match s.place
    case Idle => if s.nRead != 0 { OrderPop(s); } else { OrderElsewhere(s, other); }
    case SwapEmpty => OrderSwapEmpty(s);
    case SwapBack => OrderSwapBack(s);
    case SwapIn => OrderSwapIn(s);
    case Take => OrderPop(s);
    case _ => OrderElsewhere(s, other);
  }

  lemma OrderPut(s: State, data: seq<Byte>)
    requires Ordering(s)
    ensures Ordering(PutStep(s, data))
  {
    var c := s.(credited := s.credited - s.writeConsumed, writeConsumed := 0);
    assert Line(c) == Line(s);
    OrderEnqueue(c, data);
  }

  lemma OrderPutEof(s: State)
    requires Ordering(s)
    ensures Ordering(PutEofStep(s))
  {
    OrderEnqueue(s, []);
  }

  lemma OrderStep(s: State, a: Action)
    requires Placed(s) && Accounted(s) && Ordering(s)
    ensures Ordering(Step(s, a))
  {
    match a
    case Put(data) => OrderPut(s, data);
    case PutEof => OrderPutEof(s);
    case Work(other) => OrderWork(s, other);
  }

  // ------------------------------------------------------------ main results

  ghost predicate Invariant(s: State) {
    Accounted(s) && Placed(s) && Ordering(s) && EndsOnlyOversized(s)
  }

  lemma InvariantStep(s: State, a: Action)
    requires Invariant(s)
    ensures Invariant(Step(s, a))
  {
    AccountedStep(s, a);
    PlacedStep(s, a);
    EndsOnlyOversizedStep(s, a);
    OrderStep(s, a);
  }

  lemma {:induction false} InvariantRun(s: State, actions: seq<Action>)
    requires Invariant(s)
    ensures Invariant(Run(s, actions))
    decreases |actions|
  {
    if actions != [] {
      InvariantStep(s, actions[0]);
      InvariantRun(Step(s, actions[0]), actions[1..]);
    }
  }

  lemma InvariantEmpty()
    ensures Invariant(EMPTY)
  {
    var none: seq<Item> := [];
    assert none + none + none == none;
  }

  lemma InvariantReached(actions: seq<Action>)
    ensures Invariant(Run(EMPTY, actions))
  {
    InvariantEmpty();
    InvariantRun(EMPTY, actions);
  }

  /** In every interleaving each message put is delivered at most once and never
      lost, the counters are the lengths of the halves, and the bytes the busy
      thread was credited with, plus those still in the two consumed counters,
      are the bytes delivered. */
  lemma NothingLostOrDuplicated(actions: seq<Action>)
    ensures var s := Run(EMPTY, actions);
      && multiset(s.got) + multiset(s.read) + multiset(s.write) == multiset(s.put)
      && s.nRead == |s.read| && s.nWrite == |s.write|
      && s.credited - s.readConsumed - s.writeConsumed == Payload(s.got)
  {
    InvariantReached(actions);
  }

  /** What was put last is last: a message put is in a line of them once. */
  lemma OnceInLine(line: seq<Item>, put: seq<Item>, i: nat, j: nat)
    requires Tagged(put) && multiset(line) == multiset(put) && i < j < |line|
    ensures line[i] != line[j]
  {
    var x := line[i];
    if x == line[j] {
      var rest := line[..j] + line[j + 1..];
      assert line == line[..j] + [x] + line[j + 1..];
      assert multiset(line)[x] == multiset(rest)[x] + 1;
      assert rest[i] == x;
      OnceTagged(put, x);
    }
  }

  lemma {:induction false} OnceTagged(put: seq<Item>, x: Item)
    requires Tagged(put)
    ensures multiset(put)[x] <= 1
    decreases |put|
  {
    if put != [] {
      var n := |put| - 1;
      assert put == put[..n] + [put[n]];
      assert put[n] !in put[..n];
      OnceTagged(put[..n], x);
    }
  }

  /** A line that begins as the messages were put has nothing overtaken there. */
  lemma PrefixNotOvertaken(line: seq<Item>, frozen: nat, put: seq<Item>)
    requires Tagged(put) && multiset(line) == multiset(put) && frozen <= |line| && line[..frozen] <= put
    ensures !Overtaken(line, frozen)
  {
    if Overtaken(line, frozen) {
      var i: nat, j: nat :| OvertakenAt(line, frozen, i, j);
      assert line[i] == line[..frozen][i] == put[i];
      assert line[j] in multiset(put);
      var k :| 0 <= k < |put| && put[k] == line[j];
      assert k < i && line[k] == line[..frozen][k] == put[k];
      OnceInLine(line, put, k, j);
    }
  }

  /** Between two `get`s, what was taken and what is next in the read half is how the
      messages were put, exactly if the run had no race. */
  lemma InOrderExactly(s: State)
    requires Invariant(s) && s.place.Idle?
    ensures s.got + s.read <= s.put <==> !s.raced
    ensures s.got + s.read + s.write == s.put <==> !s.raced
  {
    var line, n := Line(s), |s.got| + |s.read|;
    assert line[..n] == s.got + s.read;
    if s.got + s.read <= s.put {
      PrefixNotOvertaken(line, n, s.put);
    }
  }

  /** Delivery is in order exactly in the runs where no `get` had its gaps hit in
      the pattern `OutOfOrder`. */
  lemma FifoExactly(actions: seq<Action>)
    requires Run(EMPTY, actions).place.Idle?
    ensures var s := Run(EMPTY, actions);
      && (s.got + s.read + s.write == s.put <==> !s.raced)
      && (s.got + s.read <= s.put <==> !s.raced)
  {
    hide Invariant;
    InvariantReached(actions);
    InOrderExactly(Run(EMPTY, actions));
  }

  /** No put takes effect between the test at 201 and the swap at 204. */
  predicate TestAndSwapTogether(s: State, actions: seq<Action>)
    decreases |actions|
  {
    actions != [] ==>
      && (s.place.SwapEmpty? ==> actions[0].Work?)
      && TestAndSwapTogether(Step(s, actions[0]), actions[1..])
  }

  lemma {:induction false} TogetherNeverRaces(s: State, actions: seq<Action>)
    requires TestAndSwapTogether(s, actions) && !s.raced && !s.gaps.early
    ensures !Run(s, actions).raced
    decreases |actions|
  {
    if actions != [] {
      TogetherNeverRaces(Step(s, actions[0]), actions[1..]);
    }
  }

  /** With 201-204 as one step, delivery is in order in every interleaving. */
  lemma FifoWhenTestAndSwapTogether(actions: seq<Action>)
    requires TestAndSwapTogether(EMPTY, actions)
    requires Run(EMPTY, actions).place.Idle?
    ensures var s := Run(EMPTY, actions); s.got + s.read + s.write == s.put
  {
    TogetherNeverRaces(EMPTY, actions);
    FifoExactly(actions);
  }

  /** `buffer_get_string` is never called on an empty half; and a worker asleep at
      line 207 has its event raised as soon as a message is in either half, so no
      wake-up is lost. */
  lemma NeverStuckNorEmptyHanded(actions: seq<Action>)
    ensures var s := Run(EMPTY, actions);
      && (s.fatal ==> s.read != [] && |s.read[0].data| > MAX_STRING)
      && (s.place.Waiting? ==> (s.arrived <==> s.read + s.write != []))
  {
    InvariantReached(actions);
  }

  lemma RunCons(s: State, a: Action, rest: seq<Action>)
    ensures Run(s, [a] + rest) == Run(Step(s, a), rest)
  {
    assert ([a] + rest)[1..] == rest;
  }

  lemma {:induction false} RunConcat(s: State, a: seq<Action>, b: seq<Action>)
    ensures Run(s, a + b) == Run(Run(s, a), b)
    decreases |a|
  {
    if a == [] {
      assert a + b == b;
    } else {
      assert a + b == [a[0]] + (a[1..] + b);
      RunCons(s, a[0], a[1..] + b);
      RunConcat(Step(s, a[0]), a[1..], b);
    }
  }

  lemma RunThree(s: State, a: Action, b: Action, c: Action)
    ensures Run(s, [a, b, c]) == Step(Step(Step(s, a), b), c)
  {
    RunCons(s, a, [b, c]);
    RunCons(Step(s, a), b, [c]);
    RunCons(Step(Step(s, a), b), c, []);
  }

  /** The code does deliver out of order.  A message put between 201 and 204 and
      an end of file put before 220: the worker sees the end of file first. */
  lemma EndOfFileOvertakesData(m: seq<Byte>)
    requires 0 < |m| <= MAX_STRING
    ensures var w := Work(false);
      var s := Run(EMPTY, [w, w, w] + [Put(m), w, w] + [PutEof, w, w] + [w]);
      s.place.Idle? && s.raced && s.got == [Item(1, [])] && s.write == [Item(0, m)]
  {
    var w := Work(false);
    var s3, s6, s9 := WithEarlyPut(m);
    RunConcat(EMPTY, [w, w, w], [Put(m), w, w]);
    RunConcat(EMPTY, [w, w, w] + [Put(m), w, w], [PutEof, w, w]);
    RunConcat(EMPTY, [w, w, w] + [Put(m), w, w] + [PutEof, w, w], [w]);
    RunCons(s9, w, []);
  }

  lemma WithEarlyPut(m: seq<Byte>) returns (s3: State, s6: State, s9: State)
    requires 0 < |m| <= MAX_STRING
    ensures var w := Work(false);
      && s3 == Run(EMPTY, [w, w, w])
      && s6 == Run(s3, [Put(m), w, w])
      && s9 == Run(s6, [PutEof, w, w])
    ensures !s9.fatal && s9.place.Take? && s9.raced && s9.got == []
    ensures s9.read == [Item(1, [])] && s9.write == [Item(0, m)]
  {
    var w := Work(false);
    RunThree(EMPTY, w, w, w);
    s3 := EMPTY.(place := SwapEmpty);
    RunThree(s3, Put(m), w, w);
    var x := Item(0, m);
    s6 := State([x], [], 1, 0, 0, 0, false, Retest, false, [x], [], 0,
                Gaps(true, false, false, false), 0, false);
    assert [] + [x] == [x];
    RunThree(s6, PutEof, w, w);
    s9 := Step(Step(Step(s6, PutEof), w), w);
  }

  // ----------------------------------------------- nothing refused, no stalling

  /** The messages the busy thread put: an empty `put` only collects, `put_eof` is an
      empty message. */
  function AskedFor(actions: seq<Action>): (ds: seq<seq<Byte>>) {
    if actions == [] then []
    else
      var a := actions[0];
      (if a.PutEof? then [[]] else if a.Put? && a.data != [] then [a.data] else []) + AskedFor(actions[1..])
  }

  lemma StepPuts(s: State, a: Action)
    ensures !s.fatal ==> DataOf(Step(s, a).put) == DataOf(s.put) + AskedFor([a])
    ensures s.fatal ==> Step(s, a) == s
  {
    assert [a][1..] == [];
    assert DataOf(s.put) + [] == DataOf(s.put);
    match a
    case Put(data) =>
      DataOfSnoc(s.put, Item(|s.put|, data));
      assert [data] + [] == [data];
    case PutEof =>
      DataOfSnoc(s.put, Item(|s.put|, []));
      var none: seq<Byte> := [];
      assert [none] + [] == [none];
    case Work(other) =>
  }

  lemma AskedForSplit(actions: seq<Action>)
    requires actions != []
    ensures AskedFor(actions) == AskedFor([actions[0]]) + AskedFor(actions[1..])
  {
    assert [actions[0]][1..] == [];
  }

  lemma {:induction false} RunPuts(s: State, actions: seq<Action>)
    ensures var t := Run(s, actions);
      && DataOf(t.put) <= DataOf(s.put) + AskedFor(actions)
      && (!t.fatal ==> DataOf(t.put) == DataOf(s.put) + AskedFor(actions))
    decreases |actions|
  {
    hide Step;
    if actions == [] {
      assert DataOf(s.put) + [] == DataOf(s.put);
    } else {
      var a, t := actions[0], Step(s, actions[0]);
      StepPuts(s, a);
      AskedForSplit(actions);
      RunPuts(t, actions[1..]);
      if s.fatal {
        FatalStays(s, actions);
      } else {
        assert DataOf(s.put) + AskedFor([a]) + AskedFor(actions[1..]) == DataOf(s.put) + AskedFor(actions);
      }
    }
  }

  lemma {:induction false} FatalStays(s: State, actions: seq<Action>)
    requires s.fatal
    ensures Run(s, actions) == s
    decreases |actions|
  {
    if actions != [] {
      FatalStays(s, actions[1..]);
    }
  }

  /** Every message asked for was put, in that order, as long as the process runs. */
  lemma EveryPutCounts(actions: seq<Action>)
    ensures var s := Run(EMPTY, actions);
      DataOf(s.put) <= AskedFor(actions) && (!s.fatal ==> DataOf(s.put) == AskedFor(actions))
  {
    hide Step;
    RunPuts(EMPTY, actions);
    assert [] + AskedFor(actions) == AskedFor(actions);
  }

  /** How many steps of `get` at most until it takes a message, when there is one. */
  function Rank(s: State): (n: nat) {
    match s.place
    case Idle => if s.nRead != 0 then 1 else 5
    case Reset => 4
    case Test => 3
    case SwapEmpty => 6
    case Waiting => 5
    case Retest => 4
    case SwapBack => 3
    case SwapIn => 2
    case Take => 1
  }

  lemma StepNearer(s: State)
    requires Accounted(s) && Placed(s) && !s.fatal && s.read + s.write != []
    ensures var t := WorkStep(s, false);
      || t.fatal || (exists x: Item :: t.got == s.got + [x])
      || (t.got == s.got && t.read + t.write != [] && Rank(t) < Rank(s))
  {
    if s.place.Take? || (s.place.Idle? && s.nRead != 0) {
      var t := WorkStep(s, false);
      assert t.fatal || t.got == s.got + [s.read[0]];
    }
  }

  function Works(n: nat): (actions: seq<Action>) {
    if n == 0 then [] else [Work(false)] + Works(n - 1)
  }

  lemma GotGrows(s: State, other: bool)
    ensures |s.got| <= |WorkStep(s, other).got|
  {
  }

  lemma {:induction false} WorksTake(s: State, n: nat)
    requires Invariant(s) && !s.fatal && s.read + s.write != [] && Rank(s) <= n
    ensures var t := Run(s, Works(n)); t.fatal || |t.got| > |s.got|
    decreases n
  {
    hide Invariant, WorkStep, Rank;
    var t := WorkStep(s, false);
    InvariantHas(s);
    InvariantStep(s, Work(false));
    StepNearer(s);
    RunCons(s, Work(false), Works(n - 1));
    if t.fatal {
      FatalStays(t, Works(n - 1));
    } else if t.got == s.got {
      WorksTake(t, n - 1);
    } else {
      WorksKeep(t, n - 1);
    }
  }

  lemma InvariantHas(s: State)
    requires Invariant(s)
    ensures Accounted(s) && Placed(s) && Rank(s) > 0
  {
  }

  lemma {:induction false} WorksKeep(s: State, n: nat)
    ensures |s.got| <= |Run(s, Works(n)).got|
    decreases n
  {
    hide WorkStep;
    if n != 0 {
      RunCons(s, Work(false), Works(n - 1));
      GotGrows(s, false);
      WorksKeep(WorkStep(s, false), n - 1);
    }
  }

  /** A worker that is let run gets a message within six steps of `get`, from wherever it
      stands in whatever interleaving, if one is there; or ends on an oversized one. */
  lemma WaitingMessagesAreTaken(actions: seq<Action>)
    requires var s := Run(EMPTY, actions); !s.fatal && s.read + s.write != []
    ensures var s := Run(EMPTY, actions); var t := Run(s, Works(6));
      t.fatal || |t.got| > |s.got|
  {
    hide Invariant, Step, Works;
    var s := Run(EMPTY, actions);
    InvariantReached(actions);
    RankBound(s);
    WorksTake(s, 6);
  }

  lemma RankBound(s: State)
    ensures Rank(s) <= 6
  {
  }

  /** A waiting worker answers another of its events exactly when no message is there. */
  lemma OtherEventsAreHeard(actions: seq<Action>)
    requires Run(EMPTY, actions).place.Waiting? && !Run(EMPTY, actions).fatal
    ensures var s := Run(EMPTY, actions); var t := WorkStep(s, true);
      t.got == s.got && (t.place.Idle? <==> s.read + s.write == [])
  {
    hide Step;
    NeverStuckNorEmptyHanded(actions);
  }

  /** What the worker consumed is credited: after a put, the swap of a worker that goes to
      wait, and another put, all bytes it was given have been. */
  lemma ConsumedIsCredited(s: State, x: seq<Byte>, y: seq<Byte>)
    requires Invariant(s) && !s.fatal && s.place.SwapEmpty?
    ensures var t := PutStep(WorkStep(PutStep(s, x), false), y);
      t.credited == Payload(s.got) && t.got == s.got && t.readConsumed == 0 && t.writeConsumed == 0
  {
    hide Balanced, Ordering, Placed, EndsOnlyOversized;
  }

  // ------------------------------------------------------------- the object

  /** The shared object, with each half as the bytes it stores.  `get` is run one
      step at a time, by `TakeOne` and `Advance`, so that puts can come between. */
  class BusyThreadWriteBuffer {
    var readBuf: seq<Byte>
    var writeBuf: seq<Byte>
    var nReadBufMsgs: int
    var nWriteBufMsgs: int
    var nReadConsumed: int
    var nWriteConsumed: int
    var dataArrived: bool
    var place: Place
    ghost var view: State

    /** The fields hold the state `view`, each half in its stored form. */
    ghost predicate Valid()
      reads this
    {
      && !view.fatal
      && Holds(readBuf, view.read) && Holds(writeBuf, view.write)
      && nReadBufMsgs == view.nRead && nWriteBufMsgs == view.nWrite
      && nReadConsumed == view.readConsumed && nWriteConsumed == view.writeConsumed
      && dataArrived == view.arrived && place == view.place
    }

    constructor ()
      ensures Valid() && view == EMPTY
    {
      readBuf, writeBuf := [], [];
      nReadBufMsgs, nWriteBufMsgs, nReadConsumed, nWriteConsumed := 0, 0, 0, 0;
      dataArrived, place := false, Idle;
      view := EMPTY;
    }

    /** `put`; the result is `*consumed` after the call. */
    method Put(data: seq<Byte>, consumed: int) returns (c: int)
      requires Valid() && |data| < TWO32
      modifies this
      ensures Valid() && view == PutStep(old(view), data)
      ensures c - consumed == view.credited - old(view).credited
    {
      c := consumed - nWriteConsumed;
      nWriteConsumed := 0;
      if |data| != 0 {
        var wasEmpty := nWriteBufMsgs == 0;
        HoldsAppend(writeBuf, view.write, Item(|view.put|, data));
        writeBuf := writeBuf + PutString(data);
        nWriteBufMsgs := nWriteBufMsgs + 1;
        if wasEmpty {
          dataArrived := true;
        }
      }
      view := PutStep(view, data);
    }

    method PutEof()
      requires Valid()
      modifies this
      ensures Valid() && view == PutEofStep(old(view))
    {
      HoldsAppend(writeBuf, view.write, Item(|view.put|, []));
      writeBuf := writeBuf + PutString([]);
      nWriteBufMsgs := nWriteBufMsgs + 1;
      dataArrived := true;
      view := PutEofStep(view);
    }

    method Swap()
      requires Valid()
      modifies this
      ensures Valid() && view == Swapped(old(view))
    {
      readBuf, writeBuf := writeBuf, readBuf;
      nReadBufMsgs, nWriteBufMsgs := nWriteBufMsgs, nReadBufMsgs;
      nReadConsumed, nWriteConsumed := nWriteConsumed, nReadConsumed;
      view := Swapped(view);
    }

    /** Lines 187-196 and 226-234; `ok` is false when the process ends here. */
    method TakeOne() returns (ok: bool, data: seq<Byte>)
      requires Valid() && (place.Take? || (place.Idle? && nReadBufMsgs != 0))
      modifies this
      ensures view == WorkStep(old(view), false) && ok == !view.fatal
      ensures ok ==> Valid() && old(view).read != [] && data == old(view).read[0].data
    {
      hide Holds, GetString;
      HoldsTake(readBuf, view.read);
      match GetString(readBuf)
      case Got(value, rest) =>
        ok, data, readBuf := true, value, rest;
        nReadBufMsgs := nReadBufMsgs - 1;
        nReadConsumed := nReadConsumed - |data|;
        place := Idle;
        view := WorkStep(view, false);
      case _ =>
        ok, data := false, [];
        view := WorkStep(view, false);
    }

    /** Any other step of `get`; `other` tells whether a caller's event fired. */
    method Advance(other: bool)
      requires Valid() && !place.Take? && (place.Idle? ==> nReadBufMsgs == 0)
      modifies this
      ensures Valid() && view == WorkStep(old(view), other)
    {
      ghost var next := WorkStep(view, other);
      match place {
        case Idle => place := Reset;
        case Reset => dataArrived := false; place := Test;
        case Test => place := if nWriteBufMsgs == 0 then SwapEmpty else SwapIn;
        case SwapEmpty => Swap(); place := Waiting;
        case Waiting =>
          if dataArrived {
            dataArrived := false; // the event resets itself
            place := Retest;
          } else if other {
            place := Idle;
          }
        case Retest => place := if nWriteBufMsgs == 0 then SwapBack else SwapIn;
        case SwapBack => Swap(); place := SwapIn;
        case SwapIn => Swap(); place := Take;
      }
      view := next;
    }
  }
}
