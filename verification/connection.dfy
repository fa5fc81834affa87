/** The closure barrier of a connection: reads, transfers and closes of any number of threads, as a
    transition system whose steps are the sections run under the closure lock, and the atomic
    operations between them. */
module Connection {
  import opened Common

  const CHUNK := 8192
  const USIZE_MAX := 0xFFFF_FFFF_FFFF_FFFF

  // ---- the shared barrier ----------------------------------------------------------------

  datatype Barrier = Barrier(closed: bool, closedAt: Option<int>, pending: int)

  const Fresh := Barrier(false, None, 0)

  function BeginClose(b: Barrier, now: int): Barrier {
    b.(closed := true, closedAt := if b.closedAt.Some? then b.closedAt else Some(now))
  }

  /** Admits an operation unless closure has begun. */
  function Begin(b: Barrier): (Barrier, bool) {
    if b.closed then (b, false) else (b.(pending := b.pending + 1), true)
  }

  function Settle(b: Barrier): Barrier {
    b.(pending := b.pending - 1)
  }

  /** The barrier as the object the two stream halves share; each method is one locked section. */
  class Closure {
    var closed: bool
    var closedAt: Option<int>
    var pending: int

    function View(): Barrier
      reads this
    {
      Barrier(closed, closedAt, pending)
    }

    constructor ()
      ensures View() == Fresh
    {
      closed, closedAt, pending := false, None, 0;
    }

    method BeginClosing(now: int)
      modifies this
      ensures View() == BeginClose(old(View()), now)
    {
      if closedAt.None? {
        closedAt := Some(now);
      }
      closed := true;
    }

    method BeginOperation() returns (admitted: bool)
      modifies this
      ensures (View(), admitted) == Begin(old(View()))
    {
      if closed {
        return false;
      }
      pending := pending + 1;
      return true;
    }

    method DropPending()
      modifies this
      ensures View() == Settle(old(View()))
    {
      pending := pending - 1;
    }
  }

  // ---- operations ------------------------------------------------------------------------

  datatype WriteResult = Completed(transferred: nat) | Closed(transferred: nat) | Failed

  /** Where a `read` is: called, about to lock, waiting on the channel, about to drop its place in the
      pending count, returned. */
  datatype ReadPc = RCalled | RLooping | RReceiving | RSettling(got: seq<Byte>) | RReturned(got: seq<Byte>)

  /** Where a `transfer` is; `WAdmitted` has not yet raised the flow count, `WUnflowing` not lowered it. */
  datatype WritePc =
    | WCalled | WAdmitted | WLooping
    | WUnflowing(result: WriteResult) | WSettling(result: WriteResult) | WReturned(result: WriteResult)

  datatype ClosePc = CCalled | CWaiting | CReturned

  datatype Op =
    | Read(want: nat, rpc: ReadPc)
    | Transfer(buf: seq<Byte>, sent: nat, wpc: WritePc)
    | Close(cpc: ClosePc)

  /** Whether the operation holds a place in the pending count. */
  predicate Live(op: Op) {
    match op
    case Read(_, pc) => pc.RLooping? || pc.RReceiving? || pc.RSettling?
    case Transfer(_, _, pc) => pc.WAdmitted? || pc.WLooping? || pc.WUnflowing? || pc.WSettling?
    case Close(_) => false
  }

  /** Whether a transfer holds a place in the flow count. */
  predicate Flowing(op: Op) {
    op.Transfer? && (op.wpc.WLooping? || op.wpc.WUnflowing?)
  }

  predicate ActiveRead(op: Op) {
    op.Read? && !op.rpc.RReturned?
  }

  /** What is read from: the channel, the chunk being read and the place in it. `arrived` is every
      octet the peer has sent, `delivered` what reads have copied out, each with the read that did. */
  datatype Inlet = Inlet(inbox: seq<seq<Byte>>, buf: seq<Byte>, pos: nat, ended: bool,
                         arrived: seq<Byte>, delivered: seq<(nat, seq<Byte>)>)

  /** What is written to: the chunks handed to the relay, each with the transfer that sent it. */
  datatype Outlet = Outlet(chunks: seq<(nat, seq<Byte>)>, ended: bool, paused: bool, after: nat)

  datatype State = State(barrier: Barrier, flow: int, ops: map<nat, Op>, inlet: Inlet, outlet: Outlet)

  const Start := State(Fresh, 0, map[], Inlet([], [], 0, false, [], []), Outlet([], false, false, USIZE_MAX))

  // ---- one locked section of each loop -----------------------------------------------------

  /** The octets a `read` of `want` takes from the chunk it holds. */
  function TakeChunk(i: Inlet, id: nat, want: nat): (Inlet, seq<Byte>)
    requires i.pos <= |i.buf|
  {
    var got := i.buf[i.pos..i.pos + Min(want, |i.buf| - i.pos)];
    (i.(pos := i.pos + |got|, delivered := i.delivered + [(id, got)]), got)
  }

  function ReadTry(b: Barrier, i: Inlet, id: nat, want: nat): (Inlet, ReadPc)
    requires i.pos <= |i.buf|
  {
    if b.closed then (i, RSettling([]))
    else if i.pos < |i.buf| then (TakeChunk(i, id, want).0, RSettling(TakeChunk(i, id, want).1))
    else (i, RReceiving)
  }

  function Receive(i: Inlet): (Inlet, ReadPc) {
    if i.inbox != [] then (i.(inbox := i.inbox[1..], buf := i.inbox[0], pos := 0), RLooping)
    else if i.ended then (i, RSettling([]))
    else (i, RLooping)
  }

  function WriteTry(b: Barrier, o: Outlet, id: nat, buf: seq<Byte>, sent: nat): (Outlet, nat, WritePc)
    requires sent <= |buf|
  {
    if b.closed then (o, sent, WUnflowing(Closed(sent)))
    else if o.paused || sent >= o.after then (o, sent, WLooping)
    else if o.ended then (o, sent, WUnflowing(Failed))
    else
      var end := Min(sent + CHUNK, |buf|);
      (o.(chunks := o.chunks + [(id, buf[sent..end])]), end,
       if end == |buf| then WUnflowing(Completed(end)) else WLooping)
  }

  // ---- the transition system -----------------------------------------------------------------

  datatype Action =
    | CallRead(id: nat, want: nat)
    | CallTransfer(id: nat, buf: seq<Byte>)
    | CallClose(id: nat)
    | Advance(id: nat, now: int)
    | OnlyBeginClose(now: int)
    | Arrive(chunk: seq<Byte>)
    | PeerEnds
    | RelayEnds
    | Pause(paused: bool)
    | PauseAfter(octets: nat)

  /** A stream half is borrowed mutably for a read, so one read runs at a time. */
  predicate Enabled(s: State, act: Action) {
    match act
    case CallRead(id, _) => id !in s.ops && forall t :: t in s.ops ==> !ActiveRead(s.ops[t])
    case CallTransfer(id, _) => id !in s.ops
    case CallClose(id) => id !in s.ops
    case Advance(id, _) => id in s.ops && WellFormed(s, s.ops[id])
    case Arrive(_) => !s.inlet.ended
    case _ => true
  }

  predicate WellFormed(s: State, op: Op) {
    (op.Read? ==> s.inlet.pos <= |s.inlet.buf|) && (op.Transfer? ==> op.sent <= |op.buf|)
  }

  function AdvanceRead(s: State, id: nat, want: nat, pc: ReadPc): State
    requires s.inlet.pos <= |s.inlet.buf|
  {
    match pc
    case RCalled =>
      var (b, admitted) := Begin(s.barrier);
      var pc' := if !admitted then RReturned([]) else if want == 0 then RSettling([]) else RLooping;
      s.(barrier := b, ops := s.ops[id := Read(want, pc')])
    case RLooping =>
      var (i, pc') := ReadTry(s.barrier, s.inlet, id, want);
      s.(inlet := i, ops := s.ops[id := Read(want, pc')])
    case RReceiving =>
      var (i, pc') := Receive(s.inlet);
      s.(inlet := i, ops := s.ops[id := Read(want, pc')])
    case RSettling(got) => s.(barrier := Settle(s.barrier), ops := s.ops[id := Read(want, RReturned(got))])
    case RReturned(_) => s
  }

  function AdvanceTransfer(s: State, id: nat, buf: seq<Byte>, sent: nat, pc: WritePc): State
    requires sent <= |buf|
  {
    match pc
    case WCalled =>
      var (b, admitted) := Begin(s.barrier);
      s.(barrier := b, ops := s.ops[id := Transfer(buf, sent, if admitted then WAdmitted else WReturned(Closed(0)))])
    case WAdmitted => s.(flow := s.flow + 1, ops := s.ops[id := Transfer(buf, sent, WLooping)])
    case WLooping =>
      var (o, sent', pc') := WriteTry(s.barrier, s.outlet, id, buf, sent);
      s.(outlet := o, ops := s.ops[id := Transfer(buf, sent', pc')])
    case WUnflowing(r) => s.(flow := s.flow - 1, ops := s.ops[id := Transfer(buf, sent, WSettling(r))])
    case WSettling(r) => s.(barrier := Settle(s.barrier), ops := s.ops[id := Transfer(buf, sent, WReturned(r))])
    case WReturned(_) => s
  }

  function AdvanceClose(s: State, id: nat, pc: ClosePc, now: int): State {
    match pc
    case CCalled => s.(barrier := BeginClose(s.barrier, now), ops := s.ops[id := Close(CWaiting)])
    case CWaiting => if s.barrier.pending == 0 then s.(ops := s.ops[id := Close(CReturned)]) else s
    case CReturned => s
  }

  function AdvanceOp(s: State, id: nat, now: int): State
    requires id in s.ops && WellFormed(s, s.ops[id])
  {
    match s.ops[id]
    case Read(want, pc) => AdvanceRead(s, id, want, pc)
    case Transfer(buf, sent, pc) => AdvanceTransfer(s, id, buf, sent, pc)
    case Close(pc) => AdvanceClose(s, id, pc, now)
  }

  function Step(s: State, act: Action): State
    requires Enabled(s, act)
  {
    match act
    case CallRead(id, want) => s.(ops := s.ops[id := Read(want, RCalled)])
    case CallTransfer(id, buf) => s.(ops := s.ops[id := Transfer(buf, 0, WCalled)])
    case CallClose(id) => s.(ops := s.ops[id := Close(CCalled)])
    case Advance(id, now) => AdvanceOp(s, id, now)
    case OnlyBeginClose(now) => s.(barrier := BeginClose(s.barrier, now))
    case Arrive(chunk) =>
      s.(inlet := s.inlet.(inbox := s.inlet.inbox + [chunk], arrived := s.inlet.arrived + chunk))
    case PeerEnds => s.(inlet := s.inlet.(ended := true))
    case RelayEnds => s.(outlet := s.outlet.(ended := true))
    case Pause(paused) => s.(outlet := s.outlet.(paused := paused))
    case PauseAfter(octets) => s.(outlet := s.outlet.(after := octets))
  }

  /** `ss` are the states of an interleaving: each follows from the one before by one enabled step. */
  ghost predicate Interleaving(ss: seq<State>) {
    && ss != []
    && ss[0] == Start
    && forall i :: 0 < i < |ss| ==> Follows(ss[i - 1], ss[i])
  }

  ghost predicate Follows(s: State, s': State) {
    exists act: Action :: Enabled(s, act) && s' == Step(s, act)
  }

  // ---- the invariants ------------------------------------------------------------------------

  function LiveOps(ops: map<nat, Op>): set<nat> {
    set id | id in ops && Live(ops[id])
  }

  function FlowOps(ops: map<nat, Op>): set<nat> {
    set id | id in ops && Flowing(ops[id])
  }

  /** The counts are the operations that hold a place in them. */
  ghost predicate Counted(s: State) {
    s.barrier.pending == |LiveOps(s.ops)| && s.flow == |FlowOps(s.ops)|
  }

  /** A close returns only once nothing is pending. */
  ghost predicate ClosesWaited(s: State) {
    && (s.barrier.closed <==> s.barrier.closedAt.Some?)
    && (forall id :: id in s.ops && s.ops[id].Close? ==>
          && (!s.ops[id].cpc.CCalled? ==> s.barrier.closed)
          && (s.ops[id].cpc.CReturned? ==> s.barrier.pending == 0))
  }

  /** The octets transfer `id` has handed to the relay. */
  function SentBy(chunks: seq<(nat, seq<Byte>)>, id: nat): seq<Byte> {
    if chunks == [] then []
    else SentBy(chunks[..|chunks| - 1], id) + if chunks[|chunks| - 1].0 == id then chunks[|chunks| - 1].1 else []
  }

  predicate ResultExact(buf: seq<Byte>, sent: nat, r: WriteResult) {
    match r
    case Completed(n) => n == sent == |buf|
    case Closed(n) => n == sent
    case Failed => true
  }

  ghost predicate TransferExact(o: Outlet, id: nat, op: Op)
    requires op.Transfer?
  {
    && op.sent <= |op.buf|
    && SentBy(o.chunks, id) == op.buf[..op.sent]
    && (op.wpc.WCalled? || op.wpc.WAdmitted? ==> op.sent == 0)
    && (op.wpc.WUnflowing? || op.wpc.WSettling? || op.wpc.WReturned? ==> ResultExact(op.buf, op.sent, op.wpc.result))
  }

  /** What the relay holds of a transfer is exactly the part it reports. */
  ghost predicate TransfersExact(s: State) {
    && (forall id :: id in s.ops && s.ops[id].Transfer? ==> TransferExact(s.outlet, id, s.ops[id]))
    && (forall id :: id !in s.ops || !s.ops[id].Transfer? ==> SentBy(s.outlet.chunks, id) == [])
  }

  /** The octets of every chunk, whoever it belongs to. */
  function Octets(chunks: seq<(nat, seq<Byte>)>): seq<Byte> {
    if chunks == [] then [] else Octets(chunks[..|chunks| - 1]) + chunks[|chunks| - 1].1
  }

  /** Every octet that arrived is delivered, held or queued, in order and once. */
  ghost predicate InOrder(i: Inlet) {
    i.pos <= |i.buf| && Octets(i.delivered) + i.buf[i.pos..] + Concat(i.inbox) == i.arrived
  }

  /** What a read that is settling or has returned got; one that got nothing was closed, ended or asked
      for nothing. */
  ghost predicate ReadExact(i: Inlet, closed: bool, id: nat, want: nat, pc: ReadPc) {
    && (pc.RReceiving? ==> i.pos == |i.buf|)
    && (pc.RLooping? || pc.RReceiving? ==> want > 0)
    && SentBy(i.delivered, id) == (if pc.RSettling? || pc.RReturned? then pc.got else [])
    && (pc.RSettling? || pc.RReturned? ==>
          |pc.got| <= want && (pc.got == [] ==> want == 0 || closed || i.ended))
  }

  ghost predicate OpReadExact(s: State, id: nat)
    requires id in s.ops
  {
    s.ops[id].Read? ==> ReadExact(s.inlet, s.barrier.closed, id, s.ops[id].want, s.ops[id].rpc)
  }

  /** Only reads receive, and one at a time. */
  ghost predicate OneReader(ops: map<nat, Op>) {
    forall id, other :: id in ops && other in ops && ActiveRead(ops[id]) && ActiveRead(ops[other]) ==> id == other
  }

  ghost predicate OnlyReadsReceive(s: State) {
    forall id :: id !in s.ops || !s.ops[id].Read? ==> SentBy(s.inlet.delivered, id) == []
  }

  ghost predicate ReadsExact(s: State) {
    && InOrder(s.inlet)
    && (forall id :: id in s.ops ==> OpReadExact(s, id))
    && OnlyReadsReceive(s)
    && OneReader(s.ops)
  }

  // ---- the counts ------------------------------------------------------------------------------

  lemma UpdateLive(ops: map<nat, Op>, id: nat, op: Op)
    ensures |LiveOps(ops[id := op])|
         == |LiveOps(ops)| + (if Live(op) then 1 else 0) - (if id in ops && Live(ops[id]) then 1 else 0)
  {
    var others := LiveOps(ops) - {id};
    assert LiveOps(ops[id := op]) == if Live(op) then others + {id} else others;
    assert LiveOps(ops) == if id in ops && Live(ops[id]) then others + {id} else others;
  }

  lemma UpdateFlow(ops: map<nat, Op>, id: nat, op: Op)
    ensures |FlowOps(ops[id := op])|
         == |FlowOps(ops)| + (if Flowing(op) then 1 else 0) - (if id in ops && Flowing(ops[id]) then 1 else 0)
  {
    var others := FlowOps(ops) - {id};
    assert FlowOps(ops[id := op]) == if Flowing(op) then others + {id} else others;
    assert FlowOps(ops) == if id in ops && Flowing(ops[id]) then others + {id} else others;
  }

  lemma UpdateCounts(ops: map<nat, Op>, id: nat, op: Op)
    ensures |LiveOps(ops[id := op])|
         == |LiveOps(ops)| + (if Live(op) then 1 else 0) - (if id in ops && Live(ops[id]) then 1 else 0)
    ensures |FlowOps(ops[id := op])|
         == |FlowOps(ops)| + (if Flowing(op) then 1 else 0) - (if id in ops && Flowing(ops[id]) then 1 else 0)
  {
    UpdateLive(ops, id, op);
    UpdateFlow(ops, id, op);
  }

  lemma StepKeepsCounted(s: State, act: Action)
    requires Counted(s) && Enabled(s, act)
    ensures Counted(Step(s, act))
  {
    var s' := Step(s, act);
    match act
    case CallRead(id, want) => UpdateCounts(s.ops, id, Read(want, RCalled));
    case CallTransfer(id, buf) => UpdateCounts(s.ops, id, Transfer(buf, 0, WCalled));
    case CallClose(id) => UpdateCounts(s.ops, id, Close(CCalled));
    case Advance(id, now) =>
      assert s'.ops == s.ops[id := s'.ops[id]];
      UpdateCounts(s.ops, id, s'.ops[id]);
    case _ =>
  }

  // ---- closure ---------------------------------------------------------------------------------

  /** Closure is final: from it on nothing is sent, nothing is handed to a reader and nothing is
      admitted, so the pending count only falls. */
  lemma ClosedStaysSilent(s: State, act: Action)
    requires s.barrier.closed && Enabled(s, act)
    ensures var s' := Step(s, act);
            && s'.barrier.closed && s'.barrier.pending <= s.barrier.pending
            && s'.outlet.chunks == s.outlet.chunks
            && s'.inlet.delivered == s.inlet.delivered
  {
  }

  lemma StepKeepsCloses(s: State, act: Action)
    requires Counted(s) && ClosesWaited(s) && Enabled(s, act)
    ensures ClosesWaited(Step(s, act))
  {
    StepKeepsCounted(s, act);
    if s.barrier.closed {
      ClosedStaysSilent(s, act);
    }
  }

  // ---- transfers -------------------------------------------------------------------------------

  lemma SentMore(chunks: seq<(nat, seq<Byte>)>, id: nat, chunk: seq<Byte>, other: nat)
    ensures SentBy(chunks + [(id, chunk)], other) == SentBy(chunks, other) + if id == other then chunk else []
  {
    assert (chunks + [(id, chunk)])[..|chunks|] == chunks;
  }

  lemma WriteTryExact(b: Barrier, o: Outlet, id: nat, buf: seq<Byte>, sent: nat)
    requires TransferExact(o, id, Transfer(buf, sent, WLooping))
    ensures var (o', sent', pc') := WriteTry(b, o, id, buf, sent);
            && TransferExact(o', id, Transfer(buf, sent', pc'))
            && forall other :: other != id ==> SentBy(o'.chunks, other) == SentBy(o.chunks, other)
  {
    var (o', sent', pc') := WriteTry(b, o, id, buf, sent);
    if o'.chunks != o.chunks {
      forall other
        ensures SentBy(o'.chunks, other) == SentBy(o.chunks, other) + if id == other then buf[sent..sent'] else []
      {
        SentMore(o.chunks, id, buf[sent..sent'], other);
      }
      assert buf[..sent] + buf[sent..sent'] == buf[..sent'];
    }
  }

  lemma AdvanceKeepsTransfers(s: State, id: nat, now: int)
    requires TransfersExact(s) && Enabled(s, Advance(id, now)) && s.ops[id].Transfer?
    ensures TransfersExact(AdvanceOp(s, id, now))
  {
    var s' := AdvanceOp(s, id, now);
    var op := s.ops[id];
    assert TransferExact(s.outlet, id, op);
    if op.wpc.WLooping? {
      WriteTryExact(s.barrier, s.outlet, id, op.buf, op.sent);
    }
    forall t | t in s'.ops && s'.ops[t].Transfer?
      ensures TransferExact(s'.outlet, t, s'.ops[t])
    {
      if t != id {
        assert TransferExact(s.outlet, t, s.ops[t]);
      }
    }
  }

  lemma StepKeepsTransfers(s: State, act: Action)
    requires TransfersExact(s) && Enabled(s, act)
    ensures TransfersExact(Step(s, act))
  {
    var s' := Step(s, act);
    if act.Advance? && s.ops[act.id].Transfer? {
      AdvanceKeepsTransfers(s, act.id, act.now);
    } else {
      assert s'.outlet.chunks == s.outlet.chunks;
      forall t | t in s'.ops && s'.ops[t].Transfer?
        ensures TransferExact(s'.outlet, t, s'.ops[t])
      {
        assert t in s.ops ==> TransferExact(s.outlet, t, s.ops[t]);
      }
    }
  }

  // ---- reads -----------------------------------------------------------------------------------

  lemma TakeInOrder(i: Inlet, id: nat, want: nat)
    requires InOrder(i)
    ensures InOrder(TakeChunk(i, id, want).0)
    ensures i.pos < |i.buf| && want > 0 ==> TakeChunk(i, id, want).1 != []
    ensures |TakeChunk(i, id, want).1| <= want
    ensures forall other :: SentBy(TakeChunk(i, id, want).0.delivered, other)
                         == SentBy(i.delivered, other) + if other == id then TakeChunk(i, id, want).1 else []
  {
    var got := TakeChunk(i, id, want).1;
    assert i.buf[i.pos..] == got + i.buf[i.pos + |got|..];
    var held := i.buf[i.pos + |got|..];
    assert (i.delivered + [(id, got)])[..|i.delivered|] == i.delivered;
    assert Octets(i.delivered) + (got + held) + Concat(i.inbox) == Octets(i.delivered) + got + held + Concat(i.inbox);
    forall other
      ensures SentBy(i.delivered + [(id, got)], other) == SentBy(i.delivered, other) + if other == id then got else []
    {
      SentMore(i.delivered, id, got, other);
    }
  }

  lemma ReceiveInOrder(i: Inlet)
    requires InOrder(i) && i.pos == |i.buf|
    ensures InOrder(Receive(i).0)
  {
    if i.inbox != [] {
      assert Concat(i.inbox) == i.inbox[0] + Concat(i.inbox[1..]);
      assert i.inbox[0][0..] == i.inbox[0] && i.buf[i.pos..] == [];
      assert Octets(i.delivered) + [] + Concat(i.inbox) == Octets(i.delivered) + i.inbox[0] + Concat(i.inbox[1..]);
    }
  }

  lemma ArriveInOrder(i: Inlet, chunk: seq<Byte>)
    requires InOrder(i)
    ensures InOrder(i.(inbox := i.inbox + [chunk], arrived := i.arrived + chunk))
  {
    ConcatSnoc(i.inbox, chunk);
    var held := i.buf[i.pos..];
    assert Octets(i.delivered) + held + (Concat(i.inbox) + chunk)
        == Octets(i.delivered) + held + Concat(i.inbox) + chunk;
  }

  lemma ReadTryExact(b: Barrier, i: Inlet, id: nat, want: nat)
    requires InOrder(i) && ReadExact(i, b.closed, id, want, RLooping)
    ensures var (i', pc') := ReadTry(b, i, id, want);
            && InOrder(i') && ReadExact(i', b.closed, id, want, pc') && i'.ended == i.ended
            && forall other :: other != id ==> SentBy(i'.delivered, other) == SentBy(i.delivered, other)
  {
    TakeInOrder(i, id, want);
  }

  /** What a step of a read leaves: its own result exact, and what other reads got as it was. */
  ghost predicate ReadStepped(s: State, s': State, id: nat) {
    && InOrder(s'.inlet) && s'.inlet.ended == s.inlet.ended && s'.barrier.closed == s.barrier.closed
    && (s' == s || (id in s'.ops && s'.ops == s.ops[id := s'.ops[id]] && s'.ops[id].Read?
                    && ReadExact(s'.inlet, s'.barrier.closed, id, s'.ops[id].want, s'.ops[id].rpc)))
    && (forall other :: other != id ==> SentBy(s'.inlet.delivered, other) == SentBy(s.inlet.delivered, other))
  }

  lemma LoopingReadExact(s: State, id: nat, want: nat)
    requires InOrder(s.inlet) && ReadExact(s.inlet, s.barrier.closed, id, want, RLooping)
    ensures ReadStepped(s, AdvanceRead(s, id, want, RLooping), id)
  {
    ReadTryExact(s.barrier, s.inlet, id, want);
  }

  lemma ReceivingReadExact(s: State, id: nat, want: nat)
    requires InOrder(s.inlet) && ReadExact(s.inlet, s.barrier.closed, id, want, RReceiving)
    ensures ReadStepped(s, AdvanceRead(s, id, want, RReceiving), id)
  {
    ReceiveInOrder(s.inlet);
  }

  lemma AdvanceReadExact(s: State, id: nat, want: nat, pc: ReadPc)
    requires InOrder(s.inlet) && ReadExact(s.inlet, s.barrier.closed, id, want, pc)
    ensures ReadStepped(s, AdvanceRead(s, id, want, pc), id)
  {
    match pc
    case RLooping => LoopingReadExact(s, id, want);
    case RReceiving => ReceivingReadExact(s, id, want);
    case _ =>
  }

  /** No step but a read's own moves the place in the stream. */
  lemma OtherStepsLeaveInlet(s: State, act: Action)
    requires InOrder(s.inlet) && Enabled(s, act) && (act.Advance? ==> !s.ops[act.id].Read?)
    ensures var s' := Step(s, act);
            && InOrder(s'.inlet)
            && s'.inlet.pos == s.inlet.pos && s'.inlet.buf == s.inlet.buf && s'.inlet.delivered == s.inlet.delivered
            && (s.inlet.ended ==> s'.inlet.ended) && (s.barrier.closed ==> s'.barrier.closed)
            && (forall id :: id in s'.ops && s'.ops[id].Read? ==>
                  if id in s.ops then s'.ops[id] == s.ops[id] else s'.ops[id].rpc == RCalled)
            && (forall id :: id in s.ops && s.ops[id].Read? ==> id in s'.ops && s'.ops[id].Read?)
  {
    if act.Arrive? {
      ArriveInOrder(s.inlet, act.chunk);
    }
  }

  lemma OtherStepKeepsReads(s: State, act: Action)
    requires ReadsExact(s) && Enabled(s, act) && (act.Advance? ==> !s.ops[act.id].Read?)
    ensures ReadsExact(Step(s, act))
  {
    var s' := Step(s, act);
    OtherStepsLeaveInlet(s, act);
    StepKeepsOneReader(s, act);
    forall id | id in s'.ops
      ensures OpReadExact(s', id)
    {
      assert id in s.ops ==> OpReadExact(s, id);
    }
  }

  lemma ReadStepKeepsReads(s: State, id: nat, now: int)
    requires ReadsExact(s) && Enabled(s, Advance(id, now)) && s.ops[id].Read?
    ensures ReadsExact(AdvanceOp(s, id, now))
  {
    var s' := AdvanceOp(s, id, now);
    assert OpReadExact(s, id);
    AdvanceReadExact(s, id, s.ops[id].want, s.ops[id].rpc);
    StepKeepsOneReader(s, Advance(id, now));
    if s' != s {
      assert ActiveRead(s.ops[id]);
      forall t | t in s'.ops
        ensures OpReadExact(s', t)
      {
        assert OpReadExact(s, t);
        assert t != id && s.ops[t].Read? ==> s.ops[t].rpc.RReturned?;
      }
    }
  }

  lemma StepKeepsOneReader(s: State, act: Action)
    requires OneReader(s.ops) && Enabled(s, act)
    ensures OneReader(Step(s, act).ops)
  {
  }

  lemma StepKeepsReads(s: State, act: Action)
    requires ReadsExact(s) && Enabled(s, act)
    ensures ReadsExact(Step(s, act))
  {
    if act.Advance? && s.ops[act.id].Read? {
      ReadStepKeepsReads(s, act.id, act.now);
    } else {
      OtherStepKeepsReads(s, act);
    }
  }

  // ---- every interleaving ----------------------------------------------------------------------

  ghost predicate Inv(s: State) {
    Counted(s) && ClosesWaited(s) && TransfersExact(s) && ReadsExact(s)
  }

  lemma StepKeepsInv(s: State, act: Action)
    requires Inv(s) && Enabled(s, act)
    ensures Inv(Step(s, act))
  {
    StepKeepsCounted(s, act);
    StepKeepsCloses(s, act);
    StepKeepsTransfers(s, act);
    StepKeepsReads(s, act);
  }

  /** In every interleaving the pending count is the number of live operations, each transfer has sent
      exactly the part it reports, and reads hand out what arrived, in order and once. */
  lemma {:induction false} EveryInterleaving(ss: seq<State>, i: nat)
    requires Interleaving(ss) && i < |ss|
    ensures Inv(ss[i])
  {
    if i > 0 {
      EveryInterleaving(ss, i - 1);
      assert Follows(ss[i - 1], ss[i]);
      var act :| Enabled(ss[i - 1], act) && ss[i] == Step(ss[i - 1], act);
      StepKeepsInv(ss[i - 1], act);
    } else {
      assert LiveOps(Start.ops) == {} && FlowOps(Start.ops) == {};
    }
  }

  /** Once closure has begun, no chunk is sent and no octet is handed to a reader, ever. */
  lemma {:induction false} NothingMovesAfterClosure(ss: seq<State>, i: nat, j: nat)
    requires Interleaving(ss) && i <= j < |ss| && ss[i].barrier.closed
    ensures ss[j].barrier.closed && ss[j].barrier.pending <= ss[i].barrier.pending
    ensures ss[j].outlet.chunks == ss[i].outlet.chunks && ss[j].inlet.delivered == ss[i].inlet.delivered
    decreases j
  {
    if i < j {
      NothingMovesAfterClosure(ss, i, j - 1);
      assert Follows(ss[j - 1], ss[j]);
      var act :| Enabled(ss[j - 1], act) && ss[j] == Step(ss[j - 1], act);
      ClosedStaysSilent(ss[j - 1], act);
    }
  }

  /** Once any close has returned, no operation is live, then or later. */
  lemma NothingPendingAfterClose(ss: seq<State>, i: nat, j: nat, id: nat)
    requires Interleaving(ss) && i <= j < |ss|
    requires id in ss[i].ops && ss[i].ops[id] == Close(CReturned)
    ensures ss[j].barrier.pending == 0
    ensures forall t :: t in ss[j].ops ==> !Live(ss[j].ops[t])
  {
    EveryInterleaving(ss, i);
    EveryInterleaving(ss, j);
    NothingMovesAfterClosure(ss, i, j);
    assert LiveOps(ss[j].ops) == {};
    forall t | t in ss[j].ops ensures !Live(ss[j].ops[t]) {
      assert Live(ss[j].ops[t]) <==> t in LiveOps(ss[j].ops);
    }
  }

  /** What the reads have handed out, all together, is the front of what arrived; each read handed out
      what it returned, and returned nothing only at the end, at closure or when asked for nothing. */
  lemma ReadsHandOutTheFront(ss: seq<State>, i: nat, id: nat)
    requires Interleaving(ss) && i < |ss| && id in ss[i].ops && ss[i].ops[id].Read? && ss[i].ops[id].rpc.RReturned?
    ensures Octets(ss[i].inlet.delivered) <= ss[i].inlet.arrived
    ensures SentBy(ss[i].inlet.delivered, id) == ss[i].ops[id].rpc.got
    ensures |ss[i].ops[id].rpc.got| <= ss[i].ops[id].want
    ensures ss[i].ops[id].rpc.got == [] ==> ss[i].ops[id].want == 0 || ss[i].barrier.closed || ss[i].inlet.ended
  {
    EveryInterleaving(ss, i);
    assert OpReadExact(ss[i], id);
  }

  // ---- close does not hang on an operation -----------------------------------------------------

  /** The steps an operation still takes once closure has begun. */
  function StepsLeft(op: Op): nat {
    match op
    case Read(_, pc) => if pc.RReceiving? then 3 else if pc.RLooping? then 2 else if pc.RSettling? then 1 else 0
    case Transfer(_, _, pc) =>
      if pc.WAdmitted? then 4 else if pc.WLooping? then 3 else if pc.WUnflowing? then 2
      else if pc.WSettling? then 1 else 0
    case Close(_) => 0
  }

  lemma LiveIsLeft(op: Op)
    ensures Live(op) <==> StepsLeft(op) > 0
    ensures StepsLeft(op) <= 4
  {
  }

  /** After closure a live operation, a stalled writer included, comes one step nearer to settled each
      time it runs, whatever the peer does. */
  lemma LiveOperationSettles(s: State, id: nat, now: int)
    requires Inv(s) && s.barrier.closed && id in s.ops && Live(s.ops[id])
    ensures Enabled(s, Advance(id, now))
    ensures var s' := Step(s, Advance(id, now));
            && StepsLeft(s'.ops[id]) < StepsLeft(s.ops[id]) <= 4
            && (StepsLeft(s'.ops[id]) == 0 <==> !Live(s'.ops[id]))
            && forall t :: t in s.ops && t != id ==> s'.ops[t] == s.ops[t]
  {
    if s.ops[id].Transfer? {
      assert TransferExact(s.outlet, id, s.ops[id]);
    } else {
      assert OpReadExact(s, id);
    }
  }

  function Left(s: State, id: nat): nat {
    if id in s.ops then StepsLeft(s.ops[id]) else 0
  }

  predicate Runs(act: Action, id: nat) {
    act.Advance? && act.id == id
  }

  /** No other step, of whatever operation or peer, moves an operation at all. */
  lemma OthersLeaveIt(s: State, act: Action, id: nat)
    requires Enabled(s, act) && !Runs(act, id)
    ensures id in s.ops ==> id in Step(s, act).ops && Step(s, act).ops[id] == s.ops[id]
    ensures Left(Step(s, act), id) == Left(s, id)
  {
  }

  lemma StepSettles(s: State, act: Action, id: nat)
    requires Inv(s) && s.barrier.closed && Enabled(s, act)
    ensures var (n, n') := (Left(s, id), Left(Step(s, act), id));
            if !Runs(act, id) then n' == n else if n > 0 then n' < n else n' == 0
  {
    if !Runs(act, id) {
      OthersLeaveIt(s, act, id);
    } else if Left(s, id) > 0 {
      LiveIsLeft(s.ops[id]);
      LiveOperationSettles(s, id, act.now);
    }
  }

  /** An interleaving with its steps. */
  ghost predicate Schedule(ss: seq<State>, acts: seq<Action>) {
    && |ss| == |acts| + 1 && ss[0] == Start
    && forall k :: 0 <= k < |acts| ==> TakesStep(ss[k], acts[k], ss[k + 1])
  }

  ghost predicate TakesStep(s: State, act: Action, s': State) {
    Enabled(s, act) && s' == Step(s, act)
  }

  lemma ScheduleInterleaves(ss: seq<State>, acts: seq<Action>)
    requires Schedule(ss, acts)
    ensures Interleaving(ss)
  {
    forall i | 0 < i < |ss| ensures Follows(ss[i - 1], ss[i]) {
      assert TakesStep(ss[i - 1], acts[i - 1], ss[i - 1 + 1]);
    }
  }

  /** How often an operation runs from step `i` up to step `j`. */
  function Turns(acts: seq<Action>, i: nat, j: nat, id: nat): nat
    requires j <= |acts|
    decreases j
  {
    if j <= i then 0 else Turns(acts, i, j - 1, id) + if Runs(acts[j - 1], id) then 1 else 0
  }

  /** In every schedule, after closure each turn of an operation brings it nearer to settled and nothing
      sets it back. */
  lemma {:induction false} SettlesByTurns(ss: seq<State>, acts: seq<Action>, i: nat, j: nat, id: nat)
    requires Schedule(ss, acts) && i <= j < |ss| && ss[i].barrier.closed
    ensures Left(ss[j], id) == 0 || Left(ss[j], id) + Turns(acts, i, j, id) <= Left(ss[i], id)
    decreases j
  {
    if i < j {
      var k := j - 1;
      SettlesByTurns(ss, acts, i, k, id);
      ScheduleInterleaves(ss, acts);
      EveryInterleaving(ss, k);
      NothingMovesAfterClosure(ss, i, k);
      assert TakesStep(ss[k], acts[k], ss[k + 1]);
      StepSettles(ss[k], acts[k], id);
    }
  }

  /** A close does not hang: whatever stalls, once each operation that was live at closure has had four
      turns, nothing is pending and a waiting close returns at its next turn. */
  lemma CloseIsNotHeldUp(ss: seq<State>, acts: seq<Action>, i: nat, j: nat, closer: nat, now: int)
    requires Schedule(ss, acts) && i <= j < |ss| && ss[i].barrier.closed
    requires forall id :: id in ss[i].ops && Live(ss[i].ops[id]) ==> Turns(acts, i, j, id) >= 4
    requires closer in ss[j].ops && ss[j].ops[closer] == Close(CWaiting)
    ensures ss[j].barrier.pending == 0 && Enabled(ss[j], Advance(closer, now))
    ensures Step(ss[j], Advance(closer, now)).ops[closer] == Close(CReturned)
  {
    forall id | id in ss[j].ops ensures !Live(ss[j].ops[id]) {
      SettlesByTurns(ss, acts, i, j, id);
      LiveIsLeft(ss[j].ops[id]);
      if id in ss[i].ops {
        LiveIsLeft(ss[i].ops[id]);
      }
    }
    ScheduleInterleaves(ss, acts);
    EveryInterleaving(ss, j);
    assert LiveOps(ss[j].ops) == {};
  }
}
