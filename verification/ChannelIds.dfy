/** The channels of one connection in their repository: when an id comes back into
    use (section 5.3 of RFC 4254). */
module ChannelIds {
  import opened Options
  import opened Bytes
  import opened Channels
  import opened CloseSafety
  import Repository

  /** A channel that was deleted, and the id it had. */
  datatype Retired = Retired(id: nat, channel: Channel)

  /** The slots, every id handed out so far in order, and every channel deleted. */
  datatype Table = Table(slots: seq<Option<Channel>>, births: seq<nat>, retired: seq<Retired>)

  const EMPTY := Table([None], [], [])

  datatype Event = Create(sftp: bool, window: U32, maxPacket: U32) | On(id: nat, move: Move)

  predicate Live(t: Table, id: nat) {
    id < |t.slots| && t.slots[id].Some?
  }

  function Create1(t: Table, c: Channel): (r: Table)
    requires |t.slots| >= 1
  {
    t.(slots := Repository.Created(t.slots, c), births := t.births + [Repository.FirstFree(t.slots)])
  }

  /** One move of one channel; `garbage_collect` may delete it from its slot. */
  function Move1(t: Table, id: nat, move: Move): (r: Table)
    requires Live(t, id)
  {
    var c := Step(t.slots[id].value, move);
    t.(slots := t.slots[id := if c.deleted then None else Some(c)],
       retired := if c.deleted then t.retired + [Retired(id, c)] else t.retired)
  }

  function TableStep(t: Table, e: Event): (r: Table)
    requires |t.slots| >= 1
    ensures |r.slots| >= 1
  {
    match e
    case Create(sftp, window, maxPacket) => Create1(t, Fresh(sftp, window, maxPacket))
    case On(id, move) => if Live(t, id) then Move1(t, id, move) else t
  }

  function TableRun(t: Table, events: seq<Event>): (r: Table)
    requires |t.slots| >= 1
    decreases |events|
  {
    if events == [] then t else TableRun(TableStep(t, events[0]), events[1..])
  }

  function BirthCount(births: seq<nat>, id: nat): (n: nat) {
    if births == [] then 0
    else BirthCount(births[..|births| - 1], id) + if births[|births| - 1] == id then 1 else 0
  }

  function RetiredCount(retired: seq<Retired>, id: nat): (n: nat) {
    if retired == [] then 0
    else RetiredCount(retired[..|retired| - 1], id) + if retired[|retired| - 1].id == id then 1 else 0
  }

  /** A channel may leave: one CLOSE sent, and one received. */
  predicate BothClosed(c: Channel) {
    Safe(c) && c.deleted
  }

  predicate SlotsSafe(slots: seq<Option<Channel>>) {
    forall i :: 0 <= i < |slots| && slots[i].Some? ==> Safe(slots[i].value) && !slots[i].value.deleted
  }

  predicate AllClosed(retired: seq<Retired>) {
    forall i :: 0 <= i < |retired| ==> BothClosed(retired[i].channel)
  }

  ghost predicate Counted(t: Table) {
    forall id: nat :: BirthCount(t.births, id) == RetiredCount(t.retired, id) + if Live(t, id) then 1 else 0
  }

  ghost predicate Valid(t: Table) {
    |t.slots| >= 1 && SlotsSafe(t.slots) && AllClosed(t.retired) && Counted(t)
  }

  lemma BirthSnoc(births: seq<nat>, b: nat, id: nat)
    ensures BirthCount(births + [b], id) == BirthCount(births, id) + if b == id then 1 else 0
  {
    assert (births + [b])[..|births|] == births;
  }

  lemma RetiredSnoc(retired: seq<Retired>, r: Retired, id: nat)
    ensures RetiredCount(retired + [r], id) == RetiredCount(retired, id) + if r.id == id then 1 else 0
  {
    assert (retired + [r])[..|retired|] == retired;
  }

  lemma CreatedSlots(slots: seq<Option<Channel>>, c: Channel)
    requires |slots| >= 1 && SlotsSafe(slots) && Safe(c) && !c.deleted
    ensures SlotsSafe(Repository.Created(slots, c))
    ensures var id, r := Repository.FirstFree(slots), Repository.Created(slots, c);
      && (id < |slots| ==> slots[id].None?) && id < |r| && r[id].Some?
      && |slots| <= |r| && (forall i :: 0 <= i < |r| && i != id ==> i < |slots| && r[i] == slots[i])
  {
    hide Safe;
  }

  lemma CreateKeeps(t: Table, c: Channel)
    requires Valid(t) && Safe(c) && !c.deleted
    ensures Valid(Create1(t, c))
  {
    hide Safe, SlotsSafe, AllClosed, BirthCount, RetiredCount, Repository.Created, Repository.FirstFree;
    CreatedSlots(t.slots, c);
    var r, b := Create1(t, c), Repository.FirstFree(t.slots);
    forall id: nat
      ensures BirthCount(r.births, id) == RetiredCount(r.retired, id) + if Live(r, id) then 1 else 0
    {
      assert BirthCount(t.births, id) == RetiredCount(t.retired, id) + if Live(t, id) then 1 else 0;
      BirthSnoc(t.births, b, id);
    }
  }

  lemma MoveSlots(t: Table, id: nat, move: Move)
    requires SlotsSafe(t.slots) && AllClosed(t.retired) && Live(t, id)
    ensures SlotsSafe(Move1(t, id, move).slots) && AllClosed(Move1(t, id, move).retired)
  {
    hide Safe, Step;
    StepSafe(t.slots[id].value, move);
  }

  lemma MoveKeeps(t: Table, id: nat, move: Move)
    requires Valid(t) && Live(t, id)
    ensures Valid(Move1(t, id, move))
  {
    hide SlotsSafe, AllClosed, BirthCount, RetiredCount, Step;
    MoveSlots(t, id, move);
    var c, r := Step(t.slots[id].value, move), Move1(t, id, move);
    forall i: nat
      ensures BirthCount(r.births, i) == RetiredCount(r.retired, i) + if Live(r, i) then 1 else 0
    {
      assert BirthCount(t.births, i) == RetiredCount(t.retired, i) + if Live(t, i) then 1 else 0;
      RetiredSnoc(t.retired, Retired(id, c), i);
    }
  }

  lemma StepKeeps(t: Table, e: Event)
    requires Valid(t)
    ensures Valid(TableStep(t, e))
  {
    hide SlotsSafe, AllClosed, Counted, Safe, Fresh, Create1, Move1;
    match e
    case Create(sftp, window, maxPacket) =>
      FreshSafe(sftp, window, maxPacket);
      FreshLives(sftp, window, maxPacket);
      CreateKeeps(t, Fresh(sftp, window, maxPacket));
    case On(id, move) =>
      if Live(t, id) {
        MoveKeeps(t, id, move);
      }
  }

  lemma FreshLives(sftp: bool, window: U32, maxPacket: U32)
    ensures !Fresh(sftp, window, maxPacket).deleted
  {
  }

  lemma {:induction false} RunKeeps(t: Table, events: seq<Event>)
    requires Valid(t)
    ensures Valid(TableRun(t, events))
    decreases |events|
  {
    hide SlotsSafe, AllClosed, Counted, TableStep;
    if events != [] {
      StepKeeps(t, events[0]);
      RunKeeps(TableStep(t, events[0]), events[1..]);
    }
  }

  /** In every run of a connection, an id is in use at most once at a time, and comes
      back only after a proper end: it was handed out exactly as often as channels
      under it were deleted, plus one while it is in use; and every deleted channel
      had sent and received a CLOSE. */
  lemma IdsComeBackOnlyAfterClose(events: seq<Event>, id: nat)
    ensures var t := TableRun(EMPTY, events);
      && BirthCount(t.births, id) == RetiredCount(t.retired, id) + (if Live(t, id) then 1 else 0)
      && (forall i :: 0 <= i < |t.retired| ==>
            var c := t.retired[i].channel; c.closeSent && c.closeRcvd && Close in c.sent)
  {
    hide TableStep, HalvesOrdered, ClosedQuietly, Tidy;
    assert Valid(EMPTY);
    RunKeeps(EMPTY, events);
  }
}
