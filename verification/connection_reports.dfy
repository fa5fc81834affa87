/** What the operations of a connection report, why, and that they get on while nothing holds them up. */
module ConnectionReports {
  import opened Common
  import opened Connection

  // ---- why an operation ends -------------------------------------------------------------------

  predicate HasResult(pc: WritePc) {
    pc.WUnflowing? || pc.WSettling? || pc.WReturned?
  }

  /** A transfer is cut short by closure alone, and fails by the end of the relay alone. */
  predicate ResultExplained(b: Barrier, o: Outlet, r: WriteResult) {
    match r
    case Completed(_) => true
    case Closed(_) => b.closed
    case Failed => o.ended
  }

  /** The peer has ended and every octet it sent has been handed out. */
  predicate Exhausted(i: Inlet) {
    i.ended && Octets(i.delivered) == i.arrived
  }

  /** A read that asked for something and got nothing was closed, or there was nothing more to come. */
  predicate ReadExplained(b: Barrier, i: Inlet, want: nat, pc: ReadPc) {
    (pc.RSettling? || pc.RReturned?) && pc.got == [] && want > 0 ==> b.closed || Exhausted(i)
  }

  predicate Explained(s: State, op: Op) {
    match op
    case Read(want, pc) => ReadExplained(s.barrier, s.inlet, want, pc)
    case Transfer(_, _, pc) => HasResult(pc) ==> ResultExplained(s.barrier, s.outlet, pc.result)
    case Close(_) => true
  }

  ghost predicate AllExplained(s: State) {
    forall id :: id in s.ops ==> Explained(s, s.ops[id])
  }

  lemma {:induction false} OctetsJoin(chunks: seq<(nat, seq<Byte>)>, id: nat, chunk: seq<Byte>)
    ensures Octets(chunks + [(id, chunk)]) == Octets(chunks) + chunk
  {
    Cut(chunks, [(id, chunk)]);
  }

  /** What is handed out only grows. */
  lemma DeliveredGrows(s: State, act: Action)
    requires Enabled(s, act)
    ensures |Octets(s.inlet.delivered)| <= |Octets(Step(s, act).inlet.delivered)|
  {
    if act.Advance? && s.ops[act.id].Read? && s.ops[act.id].rpc.RLooping? {
      OctetsJoin(s.inlet.delivered, act.id, TakeChunk(s.inlet, act.id, s.ops[act.id].want).1);
    }
  }

  lemma StaysExhausted(s: State, act: Action)
    requires Enabled(s, act) && InOrder(Step(s, act).inlet) && Exhausted(s.inlet)
    ensures Exhausted(Step(s, act).inlet)
  {
    DeliveredGrows(s, act);
    var i := Step(s, act).inlet;
    assert i.ended && i.arrived == s.inlet.arrived;
    assert |Octets(i.delivered)| == |i.arrived| && Octets(i.delivered) <= i.arrived;
  }

  /** What explains a result goes on explaining it. */
  lemma StaysExplained(s: State, act: Action, op: Op)
    requires Enabled(s, act) && InOrder(Step(s, act).inlet) && Explained(s, op)
    ensures Explained(Step(s, act), op)
  {
    if Exhausted(s.inlet) {
      StaysExhausted(s, act);
    }
  }

  lemma NothingLeft(i: Inlet)
    requires InOrder(i) && i.ended && i.pos == |i.buf| && i.inbox == []
    ensures Exhausted(i)
  {
    assert Octets(i.delivered) + i.buf[i.pos..] + Concat(i.inbox) == Octets(i.delivered);
  }

  lemma TryExplained(b: Barrier, i: Inlet, id: nat, want: nat)
    requires i.pos <= |i.buf|
    ensures ReadExplained(b, ReadTry(b, i, id, want).0, want, ReadTry(b, i, id, want).1)
  {
    assert i.pos < |i.buf| && want > 0 ==> |TakeChunk(i, id, want).1| > 0;
  }

  lemma ReceiveExplained(b: Barrier, i: Inlet, want: nat)
    requires InOrder(i) && i.pos == |i.buf|
    ensures ReadExplained(b, Receive(i).0, want, Receive(i).1)
  {
    if i.inbox == [] && i.ended {
      NothingLeft(i);
    }
  }

  lemma ReadStepExplained(s: State, id: nat, want: nat, pc: ReadPc)
    requires InOrder(s.inlet) && (pc.RReceiving? ==> s.inlet.pos == |s.inlet.buf|)
    requires id in s.ops && s.ops[id] == Read(want, pc) && ReadExplained(s.barrier, s.inlet, want, pc)
    ensures var t := AdvanceRead(s, id, want, pc); id in t.ops && Explained(t, t.ops[id])
  {
    match pc
    case RCalled =>
    case RLooping => TryExplained(s.barrier, s.inlet, id, want);
    case RReceiving => ReceiveExplained(s.barrier, s.inlet, want);
    case RSettling(_) =>
    case RReturned(_) =>
  }

  lemma OwnStepExplained(s: State, id: nat, now: int)
    requires InOrder(s.inlet) && Enabled(s, Advance(id, now))
    requires OpReadExact(s, id) && Explained(s, s.ops[id]) && InOrder(Step(s, Advance(id, now)).inlet)
    ensures Explained(Step(s, Advance(id, now)), Step(s, Advance(id, now)).ops[id])
  {
    if s.ops[id].Read? {
      ReadStepExplained(s, id, s.ops[id].want, s.ops[id].rpc);
    }
  }

  lemma StepKeepsExplained(s: State, act: Action)
    requires ReadsExact(s) && AllExplained(s) && Enabled(s, act)
    ensures AllExplained(Step(s, act))
  {
    var s' := Step(s, act);
    StepKeepsReads(s, act);
    forall id | id in s'.ops ensures Explained(s', s'.ops[id]) {
      if Runs(act, id) {
        assert OpReadExact(s, id);
        OwnStepExplained(s, id, act.now);
      } else if id in s.ops {
        OthersLeaveIt(s, act, id);
        StaysExplained(s, act, s.ops[id]);
      }
    }
  }

  lemma {:induction false} AlwaysExplained(ss: seq<State>, i: nat)
    requires Interleaving(ss) && i < |ss|
    ensures AllExplained(ss[i])
  {
    if i > 0 {
      AlwaysExplained(ss, i - 1);
      EveryInterleaving(ss, i - 1);
      assert Follows(ss[i - 1], ss[i]);
      var act :| Enabled(ss[i - 1], act) && ss[i] == Step(ss[i - 1], act);
      StepKeepsExplained(ss[i - 1], act);
    }
  }

  /** In every interleaving a transfer that returned reports completion of the whole buffer; or closure, which
      has begun; or failure, and the relay has ended. The relay holds exactly the part it sent. */
  lemma TransferReportsExactly(ss: seq<State>, i: nat, id: nat)
    requires Interleaving(ss) && i < |ss| && id in ss[i].ops && ss[i].ops[id].Transfer? && ss[i].ops[id].wpc.WReturned?
    ensures var (op, r) := (ss[i].ops[id], ss[i].ops[id].wpc.result);
            && op.sent <= |op.buf| && SentBy(ss[i].outlet.chunks, id) == op.buf[..op.sent]
            && match r {
                 case Completed(n) => n == op.sent == |op.buf|
                 case Closed(n) => n == op.sent && ss[i].barrier.closed
                 case Failed => ss[i].outlet.ended
               }
  {
    AlwaysExplained(ss, i);
    EveryInterleaving(ss, i);
    assert Explained(ss[i], ss[i].ops[id]);
    assert TransferExact(ss[i].outlet, id, ss[i].ops[id]);
  }

  /** In every interleaving a read that asked for something returns nothing only when closure has begun, or
      when the peer has ended and every octet that arrived has been handed out. */
  lemma EmptyReads(ss: seq<State>, i: nat, id: nat)
    requires Interleaving(ss) && i < |ss| && id in ss[i].ops
    requires ss[i].ops[id].Read? && ss[i].ops[id].rpc == RReturned([])
    requires ss[i].ops[id].want > 0 && !ss[i].barrier.closed
    ensures ss[i].inlet.ended && Octets(ss[i].inlet.delivered) == ss[i].inlet.arrived
  {
    AlwaysExplained(ss, i);
    assert Explained(ss[i], ss[i].ops[id]);
  }

  // ---- what one step does ----------------------------------------------------------------------

  /** Whether a step hands a chunk to the relay. */
  predicate Sends(s: State, act: Action) {
    && act.Advance? && act.id in s.ops && s.ops[act.id].Transfer? && s.ops[act.id].wpc.WLooping?
    && !s.barrier.closed && !s.outlet.paused && !s.outlet.ended && s.ops[act.id].sent < s.outlet.after
  }

  /** A chunk goes to the relay exactly at a turn of a looping transfer on an open connection, neither paused
      nor past its pause, whose relay is there; it is the next 8192 octets of the buffer, or what is left. */
  lemma SendsExactly(s: State, act: Action)
    requires Enabled(s, act)
    ensures !Sends(s, act) ==> Step(s, act).outlet.chunks == s.outlet.chunks
    ensures Sends(s, act) ==>
              var op := s.ops[act.id];
              var n := if |op.buf| - op.sent <= 8192 then |op.buf| - op.sent else 8192;
              && Step(s, act).outlet.chunks == s.outlet.chunks + [(act.id, op.buf[op.sent..op.sent + n])]
              && Step(s, act).ops[act.id].Transfer? && Step(s, act).ops[act.id].sent == op.sent + n
  {
  }

  /** Whether a step hands octets to a read. */
  predicate Takes(s: State, act: Action) {
    && act.Advance? && act.id in s.ops && s.ops[act.id].Read? && s.ops[act.id].rpc.RLooping?
    && !s.barrier.closed && s.inlet.pos < |s.inlet.buf|
  }

  /** What a read gets of the octets it holds: as many as it asked for, or all. */
  function Portion(held: seq<Byte>, want: nat): seq<Byte> {
    if want <= |held| then held[..want] else held
  }

  /** Octets are handed out exactly at a turn of a looping read on an open connection that holds some. */
  lemma TakesExactly(s: State, act: Action)
    requires Enabled(s, act)
    ensures !Takes(s, act) ==> Step(s, act).inlet.delivered == s.inlet.delivered
    ensures Takes(s, act) ==>
              var got := Portion(s.inlet.buf[s.inlet.pos..], s.ops[act.id].want);
              && Step(s, act).inlet.delivered == s.inlet.delivered + [(act.id, got)]
              && act.id in Step(s, act).ops && Step(s, act).ops[act.id] == Read(s.ops[act.id].want, RSettling(got))
  {
    if Takes(s, act) {
      assert TakeChunk(s.inlet, act.id, s.ops[act.id].want).1
          == Portion(s.inlet.buf[s.inlet.pos..], s.ops[act.id].want);
    }
  }

  /** Closure begins at the first close and keeps that instant. */
  lemma ClosureBegins(s: State, act: Action)
    requires Enabled(s, act)
    ensures var begins := act.OnlyBeginClose? || (act.Advance? && s.ops[act.id] == Close(CCalled));
            && (Step(s, act).barrier.closed <==> s.barrier.closed || begins)
            && Step(s, act).barrier.closedAt
               == if s.barrier.closedAt.None? && begins then Some(act.now) else s.barrier.closedAt
  {
  }

  lemma {:induction false} ClosedAtStays(ss: seq<State>, i: nat, j: nat)
    requires Interleaving(ss) && i <= j < |ss| && ss[i].barrier.closedAt.Some?
    ensures ss[j].barrier.closedAt == ss[i].barrier.closedAt
    decreases j
  {
    if i < j {
      ClosedAtStays(ss, i, j - 1);
      assert Follows(ss[j - 1], ss[j]);
      var act :| Enabled(ss[j - 1], act) && ss[j] == Step(ss[j - 1], act);
      ClosureBegins(ss[j - 1], act);
    }
  }

  // ---- an operation gets on --------------------------------------------------------------------

  function Turn(s: State, id: nat, now: int): State {
    if Enabled(s, Advance(id, now)) then Step(s, Advance(id, now)) else s
  }

  function Repeat<T>(f: T -> T, x: T, n: nat): T {
    if n == 0 then x else f(Repeat(f, x, n - 1))
  }

  lemma {:induction false} RepeatJoin<T>(f: T -> T, x: T, m: nat, n: nat)
    ensures Repeat(f, x, m + n) == Repeat(f, Repeat(f, x, m), n)
  {
    if n > 0 {
      RepeatJoin(f, x, m, n - 1);
    }
  }

  /** `n` turns of one operation. */
  function Alone(s: State, id: nat, now: int, n: nat): State {
    Repeat((t: State) => Turn(t, id, now), s, n)
  }

  lemma AloneJoin(s: State, id: nat, now: int, m: nat, n: nat)
    ensures Alone(s, id, now, m + n) == Alone(Alone(s, id, now, m), id, now, n)
  {
    RepeatJoin((t: State) => Turn(t, id, now), s, m, n);
  }

  /** Nothing holds up a transfer: the connection is open, the outlet is not paused and the relay is there. */
  predicate Clear(s: State) {
    !s.barrier.closed && !s.outlet.paused && !s.outlet.ended
  }

  predicate TransferAt(s: State, id: nat, buf: seq<Byte>, sent: nat, pc: WritePc) {
    sent <= |buf| && id in s.ops && s.ops[id] == Transfer(buf, sent, pc)
  }

  /** The octets sent in `n` chunks. */
  function SentIn(n: nat, size: nat): nat {
    if n * CHUNK <= size then n * CHUNK else size
  }

  predicate LoopedTo(s: State, id: nat, buf: seq<Byte>, n: nat) {
    TransferAt(s, id, buf, SentIn(n, |buf|),
               if n > 0 && n * CHUNK >= |buf| then WUnflowing(Completed(|buf|)) else WLooping)
  }

  lemma LoopTurn(s: State, id: nat, now: int, buf: seq<Byte>, n: nat)
    requires Clear(s) && LoopedTo(s, id, buf, n) && n * CHUNK < s.outlet.after && (n == 0 || n * CHUNK < |buf|)
    ensures var t := Alone(s, id, now, 1);
            LoopedTo(t, id, buf, n + 1) && Clear(t) && t.outlet.after == s.outlet.after
  {
    assert Alone(s, id, now, 0) == s;
    assert (n + 1) * CHUNK == n * CHUNK + CHUNK;
  }

  /** A transfer that nothing holds up sends a chunk at every turn, as long as it is below its pause. */
  lemma {:induction false} LoopTurns(s: State, id: nat, now: int, buf: seq<Byte>, n: nat)
    requires Clear(s) && LoopedTo(s, id, buf, 0)
    requires n > 0 ==> (n - 1) * CHUNK < s.outlet.after && (n == 1 || (n - 1) * CHUNK < |buf|)
    ensures var t := Alone(s, id, now, n);
            LoopedTo(t, id, buf, n) && Clear(t) && t.outlet.after == s.outlet.after
  {
    if n > 0 {
      if n > 1 {
        assert (n - 2) * CHUNK <= (n - 1) * CHUNK;
      }
      LoopTurns(s, id, now, buf, n - 1);
      LoopTurn(Alone(s, id, now, n - 1), id, now, buf, n - 1);
      AloneJoin(s, id, now, n - 1, 1);
    }
  }

  /** The chunks a buffer takes; an empty one takes one. */
  function ChunksOf(size: nat): nat {
    if size == 0 then 1 else (size + CHUNK - 1) / CHUNK
  }

  lemma ChunksCover(size: nat)
    ensures var n := ChunksOf(size); n > 0 && n * CHUNK >= size && (n == 1 || (n - 1) * CHUNK < size)
  {
  }

  lemma Enters(s: State, id: nat, now: int, buf: seq<Byte>)
    requires Clear(s) && TransferAt(s, id, buf, 0, WCalled)
    ensures var t := Alone(s, id, now, 2); LoopedTo(t, id, buf, 0) && Clear(t) && t.outlet.after == s.outlet.after
  {
    assert Alone(s, id, now, 0) == s;
    var one := Alone(s, id, now, 1);
    assert TransferAt(one, id, buf, 0, WAdmitted);
  }

  lemma Leaves(s: State, id: nat, now: int, buf: seq<Byte>, r: WriteResult)
    requires TransferAt(s, id, buf, |buf|, WUnflowing(r))
    ensures TransferAt(Alone(s, id, now, 2), id, buf, |buf|, WReturned(r))
  {
    assert Alone(s, id, now, 0) == s;
    assert TransferAt(Alone(s, id, now, 1), id, buf, |buf|, WSettling(r));
  }

  /** A transfer that nothing holds up completes with the whole buffer, in as many turns as it has chunks and
      four more. */
  lemma TransferCompletes(s: State, id: nat, now: int, buf: seq<Byte>)
    requires Clear(s) && TransferAt(s, id, buf, 0, WCalled) && 0 < s.outlet.after && |buf| <= s.outlet.after
    ensures TransferAt(Alone(s, id, now, ChunksOf(|buf|) + 4), id, buf, |buf|, WReturned(Completed(|buf|)))
  {
    var n := ChunksOf(|buf|);
    ChunksCover(|buf|);
    Enters(s, id, now, buf);
    var looping := Alone(s, id, now, 2);
    LoopTurns(looping, id, now, buf, n);
    var looped := Alone(looping, id, now, n);
    assert TransferAt(looped, id, buf, |buf|, WUnflowing(Completed(|buf|)));
    Leaves(looped, id, now, buf, Completed(|buf|));
    AloneJoin(s, id, now, 2, n);
    AloneJoin(s, id, now, 2 + n, 2);
  }

  /** One that is to pause stops at the first whole chunk at or past its pause, and stays there. */
  lemma TransferPauses(s: State, id: nat, now: int, buf: seq<Byte>, n: nat)
    requires Clear(s) && LoopedTo(s, id, buf, 0)
    requires n * CHUNK < |buf| && s.outlet.after <= n * CHUNK && (n > 0 ==> (n - 1) * CHUNK < s.outlet.after)
    ensures var t := Alone(s, id, now, n);
            TransferAt(t, id, buf, n * CHUNK, WLooping) && Turn(t, id, now) == t
  {
    if n > 1 {
      assert (n - 1) * CHUNK <= n * CHUNK;
    }
    LoopTurns(s, id, now, buf, n);
  }

  // ---- a read gets on --------------------------------------------------------------------------

  /** The first octets waiting in one piece. */
  function FirstPiece(held: seq<Byte>, inbox: seq<seq<Byte>>): seq<Byte>
    decreases |inbox|
  {
    if held != [] || inbox == [] then held else FirstPiece(inbox[0], inbox[1..])
  }

  lemma {:induction false} FirstPieceIsFirst(held: seq<Byte>, inbox: seq<seq<Byte>>)
    ensures FirstPiece(held, inbox) <= held + Concat(inbox)
    ensures FirstPiece(held, inbox) == [] <==> held + Concat(inbox) == []
    decreases |inbox|
  {
    if held == [] && inbox != [] {
      FirstPieceIsFirst(inbox[0], inbox[1..]);
      assert held + Concat(inbox) == inbox[0] + Concat(inbox[1..]);
    }
  }

  predicate Reading(s: State, id: nat, want: nat, pc: ReadPc) {
    id in s.ops && s.ops[id] == Read(want, pc) && s.inlet.pos <= |s.inlet.buf|
  }

  function Held(i: Inlet): seq<Byte>
    requires i.pos <= |i.buf|
  {
    i.buf[i.pos..]
  }

  /** Where a read comes to by itself: it has got the first piece that waits, as far as it asked for it; or
      nothing at the end; or it waits for more. */
  predicate ReadsTo(s: State, id: nat, want: nat, piece: seq<Byte>, ended: bool) {
    && id in s.ops
    && if piece != [] then s.ops[id] == Read(want, RSettling(Portion(piece, want)))
       else if ended then s.ops[id] == Read(want, RSettling([]))
       else s.ops[id] == Read(want, RLooping)
  }

  lemma ReadTurns(s: State, id: nat, now: int, want: nat)
    requires Reading(s, id, want, RLooping) && !s.barrier.closed && Held(s.inlet) == []
    ensures var t := Alone(s, id, now, 2);
            && !t.barrier.closed && t.inlet.ended == s.inlet.ended
            && (s.inlet.inbox == [] ==> ReadsTo(t, id, want, [], s.inlet.ended))
            && (s.inlet.inbox != [] ==> Reading(t, id, want, RLooping) && Held(t.inlet) == s.inlet.inbox[0]
                                        && t.inlet.inbox == s.inlet.inbox[1..])
  {
    assert Alone(s, id, now, 0) == s;
    var one := Alone(s, id, now, 1);
    assert Reading(one, id, want, RReceiving);
  }

  /** On an open connection a read by itself gets the first piece that waits, within two turns for each chunk
      in the channel and two more. */
  lemma {:induction false} ReadGetsOn(s: State, id: nat, now: int, want: nat) returns (n: nat)
    requires Reading(s, id, want, RLooping) && !s.barrier.closed
    ensures n <= 2 * |s.inlet.inbox| + 2
    ensures ReadsTo(Alone(s, id, now, n), id, want, FirstPiece(Held(s.inlet), s.inlet.inbox), s.inlet.ended)
    decreases |s.inlet.inbox|
  {
    if Held(s.inlet) != [] {
      n := 1;
      assert Alone(s, id, now, 0) == s;
      TakesExactly(s, Advance(id, now));
    } else {
      ReadTurns(s, id, now, want);
      if s.inlet.inbox == [] {
        n := 2;
      } else {
        var m := ReadGetsOn(Alone(s, id, now, 2), id, now, want);
        AloneJoin(s, id, now, 2, m);
        n := 2 + m;
      }
    }
  }
}
