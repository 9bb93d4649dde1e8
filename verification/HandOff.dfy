/** The turn that client, fork and server pass round while they share one ring (Client.cpp, Tenedor.cpp
    and DrawingServer.cpp over SharedMemory.cpp), one character or semaphore call at a time. */
module HandOffs {
  import opened Sectors
  import opened SharedMemories

  type Message = m: CString | |m| < RING witness []

  datatype Party = Client | Fork | Server

  /** The client: before its first turn, at the prompt, writing character `i`, about to signal the fork,
      waiting for the answer, reading it, about to signal the end, and gone. */
  datatype ClientPc =
    | CStart | CPrompt | CWrite(msg: Message, i: nat) | CPost | CWait | CRead(acc: seq<byte>) | CExit | CDone

  /** The fork: its opening exchange with the server, then rounds that the client starts. */
  datatype ForkPc =
    | FOpen(msg: Message, i: nat) | FPostOpen | FWaitOpen | FReadOpen(acc: seq<byte>) | FPostStart
    | FWait | FCheck | FRead(acc: seq<byte>)
    | FAsk(msg: Message, i: nat) | FPostServer | FWaitServer | FReadServer(acc: seq<byte>)
    | FAnswer(msg: Message, i: nat) | FPostClient | FDone

  datatype ServerPc = SWait | SCheck | SRead(acc: seq<byte>) | SWrite(msg: Message, i: nat) | SPost | SDone

  /** The ring with what it holds: the characters not read yet, and whether their message is complete;
      `message` is the last message that was written out, and `author` its writer. */
  datatype Ring = Ring(
    buffer: Buffer, writeIndex: Index, readIndex: Index,
    pending: seq<byte>, closed: bool, message: seq<byte>, author: Party)

  /** The ring, the semaphores, the flag, and the three threads. */
  datatype State = State(
    ring: Ring,
    clientSem: nat, forkSem: nat, serverSem: nat, finished: bool,
    client: ClientPc, fork: ForkPc, server: ServerPc)

  // ---- One iteration of the loops of write and read ----

  /** write: stores character `i`, or the terminator. */
  function Write(r: Ring, msg: Message, i: nat, who: Party): Ring {
    if i < |msg| then
      r.(buffer := r.buffer[r.writeIndex := msg[i]], writeIndex := (r.writeIndex + 1) % RING,
         pending := r.pending + [msg[i]])
    else
      r.(buffer := r.buffer[r.writeIndex := 0], writeIndex := (r.writeIndex + 1) % RING,
         closed := true, message := msg, author := who)
  }

  /** read: takes a character, or steps over the terminator. */
  function Read(r: Ring): Ring {
    if r.buffer[r.readIndex] != 0 then
      r.(readIndex := (r.readIndex + 1) % RING, pending := if r.pending == [] then [] else r.pending[1..])
    else r.(readIndex := (r.readIndex + 1) % RING, closed := false)
  }

  predicate AtEnd(r: Ring) { r.buffer[r.readIndex] == 0 }

  function Extended(r: Ring, acc: seq<byte>): seq<byte> { acc + [r.buffer[r.readIndex]] }

  // ---- The three programs ----

  ghost predicate ClientStep(s: State, s': State) {
    match s.client
    case CStart => s.clientSem > 0 && s' == s.(clientSem := s.clientSem - 1, client := CPrompt)
    case CPrompt =>
      s' == s.(finished := true, client := CExit)
      || (s'.client.CWrite? && s'.client.i == 0 && s' == s.(client := s'.client))
    case CWrite(msg, i) =>
      s' == s.(ring := Write(s.ring, msg, i, Client), client := if i < |msg| then CWrite(msg, i + 1) else CPost)
    case CPost => s' == s.(forkSem := s.forkSem + 1, client := CWait)
    case CWait => s.clientSem > 0 && s' == s.(clientSem := s.clientSem - 1, client := CRead([]))
    case CRead(acc) =>
      s' == s.(ring := Read(s.ring), client := if AtEnd(s.ring) then CPrompt else CRead(Extended(s.ring, acc)))
    case CExit => s' == s.(forkSem := s.forkSem + 1, client := CDone)
    case CDone => false
  }

  ghost predicate ForkStep(s: State, s': State) {
    match s.fork
    case FOpen(msg, i) =>
      s' == s.(ring := Write(s.ring, msg, i, Fork), fork := if i < |msg| then FOpen(msg, i + 1) else FPostOpen)
    case FPostOpen => s' == s.(serverSem := s.serverSem + 1, fork := FWaitOpen)
    case FWaitOpen => s.forkSem > 0 && s' == s.(forkSem := s.forkSem - 1, fork := FReadOpen([]))
    case FReadOpen(acc) =>
      s' == s.(ring := Read(s.ring), fork := if AtEnd(s.ring) then FPostStart else FReadOpen(Extended(s.ring, acc)))
    case FPostStart => s' == s.(clientSem := s.clientSem + 1, fork := FWait)
    case FWait => s.forkSem > 0 && s' == s.(forkSem := s.forkSem - 1, fork := FCheck)
    case FCheck => s' == s.(fork := if s.finished then FDone else FRead([]))
    case FRead(acc) =>
      if AtEnd(s.ring) then
        (s'.fork.FAsk? || s'.fork.FAnswer?) && s'.fork.i == 0 && s' == s.(ring := Read(s.ring), fork := s'.fork)
      else s' == s.(ring := Read(s.ring), fork := FRead(Extended(s.ring, acc)))
    case FAsk(msg, i) =>
      s' == s.(ring := Write(s.ring, msg, i, Fork), fork := if i < |msg| then FAsk(msg, i + 1) else FPostServer)
    case FPostServer => s' == s.(serverSem := s.serverSem + 1, fork := FWaitServer)
    case FWaitServer => s.forkSem > 0 && s' == s.(forkSem := s.forkSem - 1, fork := FReadServer([]))
    case FReadServer(acc) =>
      if AtEnd(s.ring) then s'.fork.FAnswer? && s'.fork.i == 0 && s' == s.(ring := Read(s.ring), fork := s'.fork)
      else s' == s.(ring := Read(s.ring), fork := FReadServer(Extended(s.ring, acc)))
    case FAnswer(msg, i) =>
      s' == s.(ring := Write(s.ring, msg, i, Fork), fork := if i < |msg| then FAnswer(msg, i + 1) else FPostClient)
    case FPostClient => s' == s.(clientSem := s.clientSem + 1, fork := FWait)
    case FDone => false
  }

  ghost predicate ServerStep(s: State, s': State) {
    match s.server
    case SWait => s.serverSem > 0 && s' == s.(serverSem := s.serverSem - 1, server := SCheck)
    case SCheck => s' == s.(server := if s.finished then SDone else SRead([]))
    case SRead(acc) =>
      if AtEnd(s.ring) then s'.server.SWrite? && s'.server.i == 0 && s' == s.(ring := Read(s.ring), server := s'.server)
      else s' == s.(ring := Read(s.ring), server := SRead(Extended(s.ring, acc)))
    case SWrite(msg, i) =>
      s' == s.(ring := Write(s.ring, msg, i, Server), server := if i < |msg| then SWrite(msg, i + 1) else SPost)
    case SPost => s' == s.(forkSem := s.forkSem + 1, server := SWait)
    case SDone => false
  }

  ghost predicate Step(s: State, s': State) {
    ClientStep(s, s') || ForkStep(s, s') || ServerStep(s, s')
  }

  ghost predicate Initial(s: State) {
    && s.ring.writeIndex == 0 && s.ring.readIndex == 0 && Empty(s.ring)
    && s.clientSem == 0 && s.forkSem == 0 && s.serverSem == 0 && !s.finished
    && s.client == CStart && s.fork.FOpen? && s.fork.i == 0 && s.server == SWait
  }

  // ---- What the ring holds ----

  /** From the read index to the write index lie the pending characters, and a terminator if the
      message is complete. */
  ghost predicate RingOk(r: Ring) {
    && |r.pending| < RING
    && (forall d :: 0 <= d < |r.pending| ==> r.pending[d] != 0 && r.buffer[Cell(r.readIndex, d)] == r.pending[d])
    && (r.closed ==> r.buffer[Cell(r.readIndex, |r.pending|)] == 0)
    && r.writeIndex == Cell(r.readIndex, |r.pending| + if r.closed then 1 else 0)
  }

  ghost predicate Empty(r: Ring) { !r.closed && r.pending == [] }

  /** A message of `who` waits to be read. */
  ghost predicate Full(r: Ring, who: Party) { r.closed && r.pending == r.message && r.author == who }

  ghost predicate MidWrite(r: Ring, msg: Message, i: nat) { !r.closed && i <= |msg| && r.pending == msg[..i] }

  /** What has been read and what is pending make up the message of `who`. */
  ghost predicate MidRead(r: Ring, acc: seq<byte>, who: Party) {
    r.closed && acc + r.pending == r.message && r.author == who
  }

  lemma WriteKeeps(r: Ring, msg: Message, i: nat, who: Party)
    requires RingOk(r) && MidWrite(r, msg, i)
    ensures RingOk(Write(r, msg, i, who))
    ensures i < |msg| ==> MidWrite(Write(r, msg, i, who), msg, i + 1)
    ensures i >= |msg| ==> Full(Write(r, msg, i, who), who)
  {
    hide Cell;
    NextCell(r.readIndex, |r.pending|);
    forall d | 0 <= d < |r.pending|
      ensures Cell(r.readIndex, d) != r.writeIndex
    {
      CellsApart(r.readIndex, d, |r.pending|);
    }
    assert i < |msg| ==> msg[..i] + [msg[i]] == msg[..i + 1];
    assert i < |msg| ==> msg[i] != 0;
  }

  lemma AtEndWhenEmpty(r: Ring)
    requires RingOk(r) && r.closed
    ensures AtEnd(r) <==> r.pending == []
    ensures r.pending != [] ==> r.buffer[r.readIndex] == r.pending[0]
  {
    hide Cell;
    EmptyCell(r.readIndex);
  }

  lemma NextRead(r: Ring)
    ensures (r.readIndex + 1) % RING == Cell(r.readIndex, 1)
  {
    hide Cell;
    EmptyCell(r.readIndex);
    NextCell(r.readIndex, 0);
  }

  /** Reading the terminator leaves the ring empty. */
  lemma ReadEnds(r: Ring)
    requires RingOk(r) && r.closed && r.pending == []
    ensures RingOk(r.(readIndex := Cell(r.readIndex, 1), closed := false))
  {
    hide Cell;
    EmptyCell(Cell(r.readIndex, 1));
  }

  /** Reading a character leaves the others. */
  lemma ReadOne(r: Ring)
    requires RingOk(r) && r.closed && r.pending != []
    ensures RingOk(r.(readIndex := Cell(r.readIndex, 1), pending := r.pending[1..]))
  {
    hide Cell;
    forall d: nat
      ensures Cell(Cell(r.readIndex, 1), d) == Cell(r.readIndex, 1 + d)
    {
      CellOfCell(r.readIndex, 1, d);
    }
  }

  lemma ReadKeeps(r: Ring, acc: seq<byte>, who: Party)
    requires RingOk(r) && MidRead(r, acc, who)
    ensures RingOk(Read(r))
    ensures AtEnd(r) ==> Empty(Read(r)) && acc == r.message
    ensures !AtEnd(r) ==> MidRead(Read(r), Extended(r, acc), who)
  {
    hide Cell, RingOk;
    AtEndWhenEmpty(r);
    NextRead(r);
    if r.pending == [] {
      ReadEnds(r);
    } else {
      ReadOne(r);
      assert acc + r.pending == (acc + [r.pending[0]]) + r.pending[1..];
    }
  }

  // ---- The invariant ----

  /** Where the tokens are: in no semaphore, or in exactly one. */
  predicate Tokens(s: State, c: nat, f: nat, v: nat) {
    s.clientSem == c && s.forkSem == f && s.serverSem == v
  }

  /** The server has the turn, or is about to get it, or has just given it back to the waiting fork. */
  ghost predicate ServerTurn(s: State) {
    match s.server
    case SWait => (Tokens(s, 0, 0, 1) && Full(s.ring, Fork)) || (Tokens(s, 0, 1, 0) && Full(s.ring, Server))
    case SCheck => Tokens(s, 0, 0, 0) && Full(s.ring, Fork)
    case SRead(acc) => Tokens(s, 0, 0, 0) && MidRead(s.ring, acc, Fork)
    case SWrite(msg, i) => Tokens(s, 0, 0, 0) && MidWrite(s.ring, msg, i)
    case SPost => Tokens(s, 0, 0, 0) && Full(s.ring, Server)
    case SDone => false
  }

  /** The client has the turn, or is about to get it, or has just given it back to the waiting fork. */
  ghost predicate ClientTurn(s: State) {
    match s.client
    case CStart => Tokens(s, 1, 0, 0) && Empty(s.ring) && !s.finished
    case CPrompt => Tokens(s, 0, 0, 0) && Empty(s.ring) && !s.finished
    case CWrite(msg, i) => Tokens(s, 0, 0, 0) && MidWrite(s.ring, msg, i) && !s.finished
    case CPost => Tokens(s, 0, 0, 0) && Full(s.ring, Client) && !s.finished
    case CWait =>
      ((Tokens(s, 1, 0, 0) && Full(s.ring, Fork)) || (Tokens(s, 0, 1, 0) && Full(s.ring, Client))) && !s.finished
    case CRead(acc) => Tokens(s, 0, 0, 0) && MidRead(s.ring, acc, Fork) && !s.finished
    case CExit => Tokens(s, 0, 0, 0) && Empty(s.ring) && s.finished
    case CDone => Tokens(s, 0, 1, 0) && Empty(s.ring) && s.finished
  }

  /** The fork has the turn in a round that the client waits for. */
  ghost predicate ForkTurn(s: State, client: ClientPc) {
    s.server == SWait && s.client == client && Tokens(s, 0, 0, 0) && !s.finished
  }

  ghost predicate TurnOk(s: State) {
    match s.fork
    case FOpen(msg, i) => ForkTurn(s, CStart) && MidWrite(s.ring, msg, i)
    case FPostOpen => ForkTurn(s, CStart) && Full(s.ring, Fork)
    case FWaitOpen => s.client == CStart && !s.finished && ServerTurn(s)
    case FReadOpen(acc) => ForkTurn(s, CStart) && MidRead(s.ring, acc, Server)
    case FPostStart => ForkTurn(s, CStart) && Empty(s.ring)
    case FWait => s.server == SWait && ClientTurn(s)
    case FCheck =>
      && s.server == SWait && Tokens(s, 0, 0, 0)
      && ((s.client == CWait && !s.finished && Full(s.ring, Client))
          || (s.client == CDone && s.finished && Empty(s.ring)))
    case FRead(acc) => ForkTurn(s, CWait) && MidRead(s.ring, acc, Client)
    case FAsk(msg, i) => ForkTurn(s, CWait) && MidWrite(s.ring, msg, i)
    case FPostServer => ForkTurn(s, CWait) && Full(s.ring, Fork)
    case FWaitServer => s.client == CWait && !s.finished && ServerTurn(s)
    case FReadServer(acc) => ForkTurn(s, CWait) && MidRead(s.ring, acc, Server)
    case FAnswer(msg, i) => ForkTurn(s, CWait) && MidWrite(s.ring, msg, i)
    case FPostClient => ForkTurn(s, CWait) && Full(s.ring, Fork)
    case FDone => s.server == SWait && s.client == CDone && Tokens(s, 0, 0, 0) && s.finished && Empty(s.ring)
  }

  ghost predicate Inv(s: State) {
    RingOk(s.ring) && TurnOk(s)
  }

  /** A write begins on an empty ring, a read on a full one. */
  lemma Begins(r: Ring)
    ensures Empty(r) ==> forall msg: Message :: MidWrite(r, msg, 0)
    ensures forall who: Party :: Full(r, who) ==> MidRead(r, [], who)
  {
  }

  lemma InitialInv(s: State)
    requires Initial(s)
    ensures Inv(s)
  {
  }

  lemma ClientKeepsInv(s: State, s': State)
    requires Inv(s) && ClientStep(s, s')
    ensures Inv(s')
  {
    hide RingOk, Write, Read, MidWrite, MidRead, AtEnd, Extended, Full, Empty;
    Begins(s.ring);
    Begins(s'.ring);
    match s.client
    case CWrite(msg, i) => WriteKeeps(s.ring, msg, i, Client);
    case CRead(acc) => ReadKeeps(s.ring, acc, Fork);
    case _ =>
  }

  lemma ForkKeepsInv(s: State, s': State)
    requires Inv(s) && ForkStep(s, s')
    ensures Inv(s')
  {
    hide RingOk, Write, Read, MidWrite, MidRead, AtEnd, Extended, Full, Empty;
    Begins(s.ring);
    Begins(s'.ring);
    match s.fork
    case FOpen(msg, i) => WriteKeeps(s.ring, msg, i, Fork);
    case FAsk(msg, i) => WriteKeeps(s.ring, msg, i, Fork);
    case FAnswer(msg, i) => WriteKeeps(s.ring, msg, i, Fork);
    case FReadOpen(acc) => ReadKeeps(s.ring, acc, Server);
    case FRead(acc) => ReadKeeps(s.ring, acc, Client);
    case FReadServer(acc) => ReadKeeps(s.ring, acc, Server);
    case _ =>
  }

  lemma ServerKeepsInv(s: State, s': State)
    requires Inv(s) && ServerStep(s, s')
    ensures Inv(s')
  {
    hide RingOk, Write, Read, MidWrite, MidRead, AtEnd, Extended, Full, Empty;
    Begins(s.ring);
    Begins(s'.ring);
    match s.server
    case SWrite(msg, i) => WriteKeeps(s.ring, msg, i, Server);
    case SRead(acc) => ReadKeeps(s.ring, acc, Fork);
    case _ =>
  }

  // ---- Every run ----

  ghost predicate Run(states: seq<State>) {
    && states != [] && Initial(states[0])
    && forall i :: 0 <= i < |states| - 1 ==> Step(states[i], states[i + 1])
  }

  lemma {:induction false} RunKeepsInv(states: seq<State>, n: nat)
    requires Run(states) && n < |states|
    ensures Inv(states[n])
  {
    hide Inv, Initial, ClientStep, ForkStep, ServerStep;
    if n == 0 {
      InitialInv(states[0]);
    } else {
      RunKeepsInv(states, n - 1);
      assert Step(states[n - 1], states[n - 1 + 1]);
      if ClientStep(states[n - 1], states[n]) {
        ClientKeepsInv(states[n - 1], states[n]);
      } else if ForkStep(states[n - 1], states[n]) {
        ForkKeepsInv(states[n - 1], states[n]);
      } else {
        ServerKeepsInv(states[n - 1], states[n]);
      }
    }
  }

  /** Does a thread have the turn, that is, is it neither waiting for it nor gone? */
  function ClientHas(s: State): nat { if s.client in {CStart, CWait, CDone} then 0 else 1 }
  function ForkHas(s: State): nat { if s.fork in {FWaitOpen, FWait, FWaitServer, FDone} then 0 else 1 }
  function ServerHas(s: State): nat { if s.server in {SWait, SDone} then 0 else 1 }

  /** How many cells there are between the indices. */
  function Held(r: Ring): nat { |r.pending| + if r.closed then 1 else 0 }

  /** In every state of every run there is at most one turn, in a semaphore or with a thread, and it is
      lost only when both client and fork are gone; and the ring never holds more than one message:
      between the indices there is a NUL only in the last cell, and only when a message is complete. */
  lemma OneTurn(states: seq<State>, n: nat)
    requires Run(states) && n < |states|
    ensures var s := states[n];
            var turns := s.clientSem + s.forkSem + s.serverSem + ClientHas(s) + ForkHas(s) + ServerHas(s);
            turns <= 1 && (turns == 0 <==> s.fork == FDone) && (s.fork == FDone ==> s.client == CDone)
    ensures var r := states[n].ring;
            && RingOk(r) && Held(r) <= RING && r.writeIndex == Cell(r.readIndex, Held(r))
            && forall d :: 0 <= d < Held(r) ==> (r.buffer[Cell(r.readIndex, d)] == 0 <==> r.closed && d == Held(r) - 1)
    ensures states[n].ring.closed ==> |states[n].ring.pending| <= |states[n].ring.message|
  {
    hide Cell, RingOk;
    RunKeepsInv(states, n);
    RingHolds(states[n].ring);
  }

  lemma RingHolds(r: Ring)
    requires RingOk(r)
    ensures Held(r) <= RING && r.writeIndex == Cell(r.readIndex, Held(r))
    ensures forall d :: 0 <= d < Held(r) ==> (r.buffer[Cell(r.readIndex, d)] == 0 <==> r.closed && d == Held(r) - 1)
  {
    hide Cell;
  }

  // ---- No deadlock ----

  /** The client has the turn, or the semaphore it waits on lets it have it. */
  predicate ClientReady(s: State) { if s.client in {CStart, CWait} then s.clientSem > 0 else s.client != CDone }
  predicate ForkReady(s: State) {
    if s.fork in {FWaitOpen, FWait, FWaitServer} then s.forkSem > 0 else s.fork != FDone
  }
  predicate ServerReady(s: State) { if s.server == SWait then s.serverSem > 0 else s.server != SDone }

  lemma ClientMoves(s: State)
    ensures ClientReady(s) <==> exists s' :: ClientStep(s, s')
  {
    if ClientReady(s) {
      var s' := match s.client
        case CStart => s.(clientSem := s.clientSem - 1, client := CPrompt)
        case CPrompt => s.(finished := true, client := CExit)
        case CWrite(msg, i) =>
          s.(ring := Write(s.ring, msg, i, Client), client := if i < |msg| then CWrite(msg, i + 1) else CPost)
        case CPost => s.(forkSem := s.forkSem + 1, client := CWait)
        case CWait => s.(clientSem := s.clientSem - 1, client := CRead([]))
        case CRead(acc) =>
          s.(ring := Read(s.ring), client := if AtEnd(s.ring) then CPrompt else CRead(Extended(s.ring, acc)))
        case CExit => s.(forkSem := s.forkSem + 1, client := CDone)
        case CDone => s;
      assert ClientStep(s, s');
    }
  }

  lemma ForkMoves(s: State)
    ensures ForkReady(s) <==> exists s' :: ForkStep(s, s')
  {
    hide Write, Read, Extended;
    if ForkReady(s) {
      var s' := match s.fork
        case FOpen(msg, i) =>
          s.(ring := Write(s.ring, msg, i, Fork), fork := if i < |msg| then FOpen(msg, i + 1) else FPostOpen)
        case FPostOpen => s.(serverSem := s.serverSem + 1, fork := FWaitOpen)
        case FWaitOpen => s.(forkSem := s.forkSem - 1, fork := FReadOpen([]))
        case FReadOpen(acc) =>
          s.(ring := Read(s.ring), fork := if AtEnd(s.ring) then FPostStart else FReadOpen(Extended(s.ring, acc)))
        case FPostStart => s.(clientSem := s.clientSem + 1, fork := FWait)
        case FWait => s.(forkSem := s.forkSem - 1, fork := FCheck)
        case FCheck => s.(fork := if s.finished then FDone else FRead([]))
        case FRead(acc) =>
          s.(ring := Read(s.ring), fork := if AtEnd(s.ring) then FAnswer([], 0) else FRead(Extended(s.ring, acc)))
        case FAsk(msg, i) =>
          s.(ring := Write(s.ring, msg, i, Fork), fork := if i < |msg| then FAsk(msg, i + 1) else FPostServer)
        case FPostServer => s.(serverSem := s.serverSem + 1, fork := FWaitServer)
        case FWaitServer => s.(forkSem := s.forkSem - 1, fork := FReadServer([]))
        case FReadServer(acc) =>
          s.(ring := Read(s.ring), fork := if AtEnd(s.ring) then FAnswer([], 0) else FReadServer(Extended(s.ring, acc)))
        case FAnswer(msg, i) =>
          s.(ring := Write(s.ring, msg, i, Fork), fork := if i < |msg| then FAnswer(msg, i + 1) else FPostClient)
        case FPostClient => s.(clientSem := s.clientSem + 1, fork := FWait)
        case FDone => s;
      assert ForkStep(s, s');
    }
  }

  lemma ServerMoves(s: State)
    ensures ServerReady(s) <==> exists s' :: ServerStep(s, s')
  {
    if ServerReady(s) {
      var s' := match s.server
        case SWait => s.(serverSem := s.serverSem - 1, server := SCheck)
        case SCheck => s.(server := if s.finished then SDone else SRead([]))
        case SRead(acc) =>
          s.(ring := Read(s.ring), server := if AtEnd(s.ring) then SWrite([], 0) else SRead(Extended(s.ring, acc)))
        case SWrite(msg, i) =>
          s.(ring := Write(s.ring, msg, i, Server), server := if i < |msg| then SWrite(msg, i + 1) else SPost)
        case SPost => s.(forkSem := s.forkSem + 1, server := SWait)
        case SDone => s;
      assert ServerStep(s, s');
    }
  }

  /** In every state of every run somebody can move, until the fork is done; then nobody can. */
  lemma NoDeadlock(states: seq<State>, n: nat)
    requires Run(states) && n < |states|
    ensures states[n].fork != FDone <==> exists s' :: Step(states[n], s')
  {
    hide Cell, RingOk, ClientStep, ForkStep, ServerStep, Full, Empty, MidRead, MidWrite;
    var s := states[n];
    RunKeepsInv(states, n);
    ClientMoves(s);
    ForkMoves(s);
    ServerMoves(s);
    assert (exists s' :: Step(s, s')) <==> ClientReady(s) || ForkReady(s) || ServerReady(s) by {
      if ClientReady(s) {
        var s' :| ClientStep(s, s');
        assert Step(s, s');
      } else if ForkReady(s) {
        var s' :| ForkStep(s, s');
        assert Step(s, s');
      } else if ServerReady(s) {
        var s' :| ServerStep(s, s');
        assert Step(s, s');
      }
    }
  }

  /** A thread that comes to the end of a read. */
  ghost predicate EndsRead(s: State, acc: seq<byte>, from: Party) {
    AtEnd(s.ring)
    && ((s.client == CRead(acc) && from == Fork) || (s.server == SRead(acc) && from == Fork)
        || (s.fork == FRead(acc) && from == Client)
        || ((s.fork == FReadOpen(acc) || s.fork == FReadServer(acc)) && from == Server))
  }

  /** Every read returns exactly the message that was written last, by the counterpart, however the
      indices have wrapped around. */
  lemma ReadsWhatWasWritten(states: seq<State>, n: nat, acc: seq<byte>, from: Party)
    requires Run(states) && n < |states| && EndsRead(states[n], acc, from)
    ensures acc == states[n].ring.message && states[n].ring.author == from
  {
    hide RingOk;
    RunKeepsInv(states, n);
    ReadKeeps(states[n].ring, acc, from);
  }

  // ---- Whose message the ring holds ----

  /** A thread that is about to store the terminator of its message. */
  ghost predicate EndsWrite(s: State, msg: Message, who: Party) {
    || (who == Client && s.client == CWrite(msg, |msg|))
    || (who == Fork && (s.fork == FOpen(msg, |msg|) || s.fork == FAsk(msg, |msg|) || s.fork == FAnswer(msg, |msg|)))
    || (who == Server && s.server == SWrite(msg, |msg|))
  }

  ghost predicate Moves(s: State, s': State, who: Party) {
    match who
    case Client => s'.client != s.client
    case Fork => s'.fork != s.fork
    case Server => s'.server != s.server
  }

  /** A thread that ends its write leaves the whole of its message in the ring, under its own name. */
  lemma MessageWritten(states: seq<State>, n: nat, msg: Message, who: Party)
    requires Run(states) && n + 1 < |states| && EndsWrite(states[n], msg, who) && Moves(states[n], states[n + 1], who)
    ensures var r := states[n + 1].ring;
            && r.closed && r.pending == msg && r.message == msg && r.author == who
            && forall d :: 0 <= d < |msg| ==> r.buffer[Cell(r.readIndex, d)] == msg[d]
  {
    hide Cell, Initial, RingOk, Write, Read, AtEnd, Extended, Empty, MidRead;
    RunKeepsInv(states, n);
    assert Step(states[n], states[n + 1]);
    WriteKeeps(states[n].ring, msg, |msg|, who);
    WrittenMessage(states[n].ring, msg, who);
    PendingCells(states[n + 1].ring);
  }

  lemma WrittenMessage(r: Ring, msg: Message, who: Party)
    ensures var r' := Write(r, msg, |msg|, who); r'.message == msg && r'.author == who
  {
  }

  lemma PendingCells(r: Ring)
    requires RingOk(r)
    ensures forall d :: 0 <= d < |r.pending| ==> r.buffer[Cell(r.readIndex, d)] == r.pending[d]
  {
    hide Cell;
  }

  predicate SameMessage(r: Ring, r': Ring) {
    r'.message == r.message && r'.author == r.author
  }

  lemma RingKeepsMessage(r: Ring, msg: Message, i: nat, who: Party)
    ensures SameMessage(r, Read(r))
    ensures if i < |msg| then SameMessage(r, Write(r, msg, i, who))
            else Write(r, msg, i, who).message == msg && Write(r, msg, i, who).author == who
  {
  }

  /** The message of `who` that was being written is now the one of the ring. */
  ghost predicate Wrote(s: State, s': State, msg: Message, who: Party) {
    EndsWrite(s, msg, who) && Moves(s, s', who) && s'.ring.message == msg && s'.ring.author == who
  }

  ghost predicate SomeoneWrote(s: State, s': State) {
    exists msg: Message, who :: Wrote(s, s', msg, who)
  }

  lemma ClientWrites(s: State, s': State)
    requires Inv(s) && ClientStep(s, s') && !SameMessage(s.ring, s'.ring)
    ensures SomeoneWrote(s, s')
  {
    hide RingOk, Write, Read, MidRead, AtEnd, Extended, Full, Empty;
    RingKeepsMessage(s.ring, [], 0, Client);
    if s.client.CWrite? {
      RingKeepsMessage(s.ring, s.client.msg, s.client.i, Client);
      assert Wrote(s, s', s.client.msg, Client);
    }
  }

  lemma ForkWrites(s: State, s': State)
    requires Inv(s) && ForkStep(s, s') && !SameMessage(s.ring, s'.ring)
    ensures SomeoneWrote(s, s')
  {
    hide RingOk, Write, Read, MidRead, AtEnd, Extended, Full, Empty;
    RingKeepsMessage(s.ring, [], 0, Fork);
    if s.fork.FOpen? || s.fork.FAsk? || s.fork.FAnswer? {
      RingKeepsMessage(s.ring, s.fork.msg, s.fork.i, Fork);
      assert Wrote(s, s', s.fork.msg, Fork);
    }
  }

  lemma ServerWrites(s: State, s': State)
    requires Inv(s) && ServerStep(s, s') && !SameMessage(s.ring, s'.ring)
    ensures SomeoneWrote(s, s')
  {
    hide RingOk, Write, Read, MidRead, AtEnd, Extended, Full, Empty;
    RingKeepsMessage(s.ring, [], 0, Server);
    if s.server.SWrite? {
      RingKeepsMessage(s.ring, s.server.msg, s.server.i, Server);
      assert Wrote(s, s', s.server.msg, Server);
    }
  }

  /** Nothing else changes the message. */
  lemma OnlyWritersChange(states: seq<State>, n: nat)
    requires Run(states) && n + 1 < |states| && !SameMessage(states[n].ring, states[n + 1].ring)
    ensures SomeoneWrote(states[n], states[n + 1])
  {
    hide Inv, Initial, ClientStep, ForkStep, ServerStep, SomeoneWrote;
    RunKeepsInv(states, n);
    assert Step(states[n], states[n + 1]);
    if ClientStep(states[n], states[n + 1]) {
      ClientWrites(states[n], states[n + 1]);
    } else if ForkStep(states[n], states[n + 1]) {
      ForkWrites(states[n], states[n + 1]);
    } else {
      ServerWrites(states[n], states[n + 1]);
    }
  }
}
