/** One client and the worker thread of demo-dh/drivers/serial_thread.c (DEBUG build), as an
    interleaving of atomic steps.

    A step touches at most one of the shared cells: reading the command slot and clearing it are
    two steps.  Only the worker's copy loop, which takes one step per byte, reads the transmit
    buffer and writes the receive buffer in the same step.  A run is any sequence of choices of who
    moves next; a choice that is blocked leaves the state as it is.

    A copy loop that leaves a buffer of the device goes on; the access is counted as stray.  What it
    overwrites is not modelled: in the source such a run has no defined meaning.  */
module Serial {
  import opened Island
  import opened Util

  const CAPACITY: nat := 0x2000
  const INT_LIMIT: nat := 0x8000_0000

  /** How many bytes the worker's loop copies: it takes the unsigned length as an int. */
  function CopyCount(len: nat): nat { if len < INT_LIMIT then len else 0 }

  datatype Command = NoCmd | Rd | Wr

  /** Where the worker is in `serial_run` and the routines it calls. */
  datatype WorkerPc =
    | Switch     // at the switch on `land`
    | Wait       // serial_idle_process: wait for `active`
    | FirstCheck //   test `stop`
    | ReadCmd    //   cmd = ctrl->cmd
    | ClearCmd   //   ctrl->cmd = SER_CMD_NULL
    | Board      //   take_ship
    | LastCheck  // serial_run: test `stop` again
    | LoopEnd    // leave the loop or go round
    | TxBoard | TxPost
    | RxBoard | RxLen | RxCopy | RxCnt | RxPost
    | Reset
    | Exited

  datatype Worker = Worker(pc: WorkerPc, land: Land, held: Command, quit: bool, len: nat, i: nat)

  /** Where the client is in `serial_dev_read`, `serial_dev_write` and `serial_dev_destroy`. */
  datatype ClientPc =
    | Ready
    | WriteLen | WriteCopy | WriteCmd | WritePost | WriteWait
    | ReadCnt | ReadSend | ReadPost | ReadWait | ReadTake | ReadCopy
    | StopSet | StopPost | Join | Gone

  /** The client with the arguments and locals of its call: the bytes to write; the size of the
      buffer to read into, the count read from the channel, what has been stored in that buffer,
      and how many bytes have been stored past its end. */
  datatype Client = Client(
    pc: ClientPc, data: seq<char>, i: nat,
    room: nat, cnt: nat, out: seq<char>, spilled: nat)

  datatype Shared = Shared(
    cmd: Command, stop: bool, active: nat, txReady: nat, rxReady: nat,
    txBuf: seq<char>, txLen: nat, rxBuf: seq<char>, rxCnt: nat)

  /** History, for stating properties only. */
  datatype Log = Log(
    issued: nat,     // RD commands stored in the slot
    taken: nat,      // RD commands the worker has read there
    served: nat,     // RD commands executed to the post of `rx_ready`
    succeeded: nat,  // reads whose wait succeeded
    expired: nat,    // reads whose wait did not
    lastWrite: seq<char>,
    lastRead: seq<char>,  // what the last completed read left in the caller's buffer
    lastCount: nat,       // the count it returned
    lastSpill: nat,       // the bytes it stored past the end of that buffer
    first: Option<Choice>,  // the first call
    longest: nat,           // the length of the longest write that has begun
    stray: nat)             // accesses outside the buffers of the device

  datatype State = State(sh: Shared, w: Worker, c: Client, log: Log)

  datatype Choice = Work | Go | Expire | BeginRead(room: nat) | BeginWrite(data: seq<char>) | BeginDestroy

  /** Any device fresh from `serial_dev_create`, whose channels have arbitrary contents. */
  predicate Initial(s: State) {
    && s.w == Worker(Switch, Idle, NoCmd, false, 0, 0)
    && s.c == Client(Ready, [], 0, 0, 0, [], 0)
    && |s.sh.txBuf| == CAPACITY && |s.sh.rxBuf| == CAPACITY
    && s.sh == s.sh.(cmd := NoCmd, stop := false, active := 0, txReady := 0, rxReady := 0)
    && s.log == Log(0, 0, 0, 0, 0, Loaded(s.sh), [], 0, 0, None, 0, 0)
  }

  /** The worker's loop copies no more than fits a channel. */
  predicate Fits(len: nat) { CopyCount(len) <= CAPACITY }

  /** What the transmit channel of a fresh device holds; its length has never been set. */
  function Loaded(sh: Shared): seq<char> {
    if CopyCount(sh.txLen) <= |sh.txBuf| then sh.txBuf[..CopyCount(sh.txLen)] else []
  }

  // ----- Steps -----

  function Astray(log: Log): Log { log.(stray := log.stray + 1) }

  function At(s: State, pc: WorkerPc): State { s.(w := s.w.(pc := pc)) }

  predicate WorkerEnabled(s: State) {
    s.w.pc != Exited && (s.w.pc == Wait ==> s.sh.active > 0)
  }

  function WorkerStep(s: State): State
    requires WorkerEnabled(s)
  {
    match s.w.pc
    case Switch =>
      At(s, match s.w.land
            case Idle => Wait
            case Tx => TxBoard
            case Rx => RxBoard
            case Null => Reset)
    case Wait => At(s.(sh := s.sh.(active := s.sh.active - 1)), FirstCheck)
    case FirstCheck => At(s, if s.sh.stop then LastCheck else ReadCmd)
    case ReadCmd =>
      s.(w := s.w.(pc := ClearCmd, held := s.sh.cmd),
         log := s.log.(taken := s.log.taken + if s.sh.cmd == Rd then 1 else 0))
    case ClearCmd => At(s.(sh := s.sh.(cmd := NoCmd)), Board)
    case Board =>
      s.(w := s.w.(pc := LastCheck, land :=
        if s.w.held == Wr then TakeShip(s.w.land, IdleToTx)
        else if s.w.held == Rd then TakeShip(s.w.land, IdleToRx)
        else s.w.land))
    case LastCheck => s.(w := s.w.(pc := LoopEnd, quit := s.w.quit || s.sh.stop))
    case LoopEnd => At(s, if s.w.quit then Exited else Switch)
    case TxBoard => s.(w := s.w.(pc := TxPost, land := TakeShip(s.w.land, TxToIdle)))
    case TxPost => At(s.(sh := s.sh.(txReady := s.sh.txReady + 1)), LoopEnd)
    case RxBoard => s.(w := s.w.(pc := RxLen, land := TakeShip(s.w.land, RxToIdle)))
    case RxLen => s.(w := s.w.(pc := RxCopy, len := CopyCount(s.sh.txLen), i := 0))
    case RxCopy =>
      if s.w.i < s.w.len && (s.w.i >= |s.sh.txBuf| || s.w.i >= |s.sh.rxBuf|) then
        s.(w := s.w.(i := s.w.i + 1), log := Astray(s.log))
      else if s.w.i < s.w.len then
        s.(sh := s.sh.(rxBuf := s.sh.rxBuf[s.w.i := s.sh.txBuf[s.w.i]]), w := s.w.(i := s.w.i + 1))
      else At(s, RxCnt)
    case RxCnt => At(s.(sh := s.sh.(rxCnt := s.w.i)), RxPost)
    case RxPost =>
      At(s.(sh := s.sh.(rxReady := s.sh.rxReady + 1), log := s.log.(served := s.log.served + 1)), LoopEnd)
    case Reset => s.(w := s.w.(pc := LoopEnd, land := Idle))
  }

  function ClientAt(s: State, pc: ClientPc): State { s.(c := s.c.(pc := pc)) }

  /** The client's next step within a call; blocked steps do nothing. */
  function ClientStep(s: State): State {
    match s.c.pc
    case WriteLen => ClientAt(s.(sh := s.sh.(txLen := |s.c.data|)), WriteCopy)
    case WriteCopy =>
      if s.c.i < |s.c.data| then
        if s.c.i < |s.sh.txBuf| then
          s.(sh := s.sh.(txBuf := s.sh.txBuf[s.c.i := s.c.data[s.c.i]]), c := s.c.(i := s.c.i + 1))
        else s.(c := s.c.(i := s.c.i + 1), log := Astray(s.log))
      else ClientAt(s.(log := s.log.(lastWrite := s.c.data)), WriteCmd)
    case WriteCmd => ClientAt(s.(sh := s.sh.(cmd := Wr)), WritePost)
    case WritePost => ClientAt(s.(sh := s.sh.(active := s.sh.active + 1)), WriteWait)
    case WriteWait =>
      if s.sh.txReady > 0 then ClientAt(s.(sh := s.sh.(txReady := s.sh.txReady - 1)), Ready) else s
    case ReadCnt => ClientAt(s.(sh := s.sh.(rxCnt := 0)), ReadSend)
    case ReadSend =>
      ClientAt(s.(sh := s.sh.(cmd := Rd), log := s.log.(issued := s.log.issued + 1)), ReadPost)
    case ReadPost => ClientAt(s.(sh := s.sh.(active := s.sh.active + 1)), ReadWait)
    case ReadWait =>
      if s.sh.rxReady > 0 then
        s.(sh := s.sh.(rxReady := s.sh.rxReady - 1), c := s.c.(pc := ReadTake),
           log := s.log.(succeeded := s.log.succeeded + 1))
      else s
    case ReadTake => s.(c := s.c.(pc := ReadCopy, cnt := s.sh.rxCnt, i := 0, out := [], spilled := 0))
    case ReadCopy =>
      if s.c.i < s.c.cnt then
        var inside := s.c.i < |s.sh.rxBuf|;
        var log := if inside then s.log else Astray(s.log);
        if s.c.i < s.c.room then
          // where the source reads past its buffer, '?' stands for what it finds
          s.(c := s.c.(i := s.c.i + 1, out := s.c.out + [if inside then s.sh.rxBuf[s.c.i] else '?']), log := log)
        else s.(c := s.c.(i := s.c.i + 1, spilled := s.c.spilled + 1), log := log)
      else
        ClientAt(s.(log := s.log.(lastRead := s.c.out, lastCount := s.c.cnt, lastSpill := s.c.spilled)), Ready)
    case StopSet => ClientAt(s.(sh := s.sh.(stop := true)), StopPost)
    case StopPost => ClientAt(s.(sh := s.sh.(active := s.sh.active + 1)), Join)
    case Join => if s.w.pc == Exited then ClientAt(s, Gone) else s
    case _ => s
  }

  function Step(s: State, a: Choice): State {
    match a
    case Work => if WorkerEnabled(s) then WorkerStep(s) else s
    case Go => ClientStep(s)
    case Expire =>
      if s.c.pc == ReadWait then
        s.(c := s.c.(pc := Ready), log := s.log.(expired := s.log.expired + 1))
      else s
    case BeginRead(room) =>
      if s.c.pc == Ready then s.(c := s.c.(pc := ReadCnt, room := room), log := Begun(s.log, a)) else s
    case BeginWrite(data) =>
      if s.c.pc == Ready then s.(c := s.c.(pc := WriteLen, data := data, i := 0), log := Begun(s.log, a)) else s
    case BeginDestroy =>
      if s.c.pc == Ready then s.(c := s.c.(pc := StopSet), log := Begun(s.log, a)) else s
  }

  function Begun(log: Log, a: Choice): Log {
    log.(first := if log.first.None? then Some(a) else log.first,
         longest := if a.BeginWrite? && |a.data| > log.longest then |a.data| else log.longest)
  }

  function Run(s: State, choices: seq<Choice>): State {
    if choices == [] then s else Step(Run(s, choices[..|choices| - 1]), choices[|choices| - 1])
  }

  lemma NoStep(s: State)
    ensures Run(s, []) == s
  {
  }

  lemma RunOne(s: State, a: Choice)
    ensures Run(s, [a]) == Step(s, a)
  {
    assert [a][..0] == [];
  }

  lemma {:induction false} RunAppend(s: State, a: seq<Choice>, b: seq<Choice>)
    ensures Run(s, a + b) == Run(Run(s, a), b)
  {
    if b == [] {
      assert a + b == a;
    } else {
      var n := |b| - 1;
      assert (a + b)[..|a| + n] == a + b[..n];
      RunAppend(s, a, b[..n]);
    }
  }

  // ----- Invariants of every run -----

  /** Positions between taking a command and boarding, and within a transfer. */
  predicate OnIdle(pc: WorkerPc) {
    || pc.Wait? || pc.FirstCheck? || pc.ReadCmd? || pc.ClearCmd? || pc.Board?
    || pc.TxPost? || pc.RxLen? || pc.RxCopy? || pc.RxCnt? || pc.RxPost?
  }

  predicate Receiving(pc: WorkerPc) {
    pc.RxBoard? || pc.RxLen? || pc.RxCopy? || pc.RxCnt? || pc.RxPost?
  }

  /** The worker's position and its land agree; the null island is never reached. */
  predicate LandInvariant(w: Worker) {
    && w.land != Null && w.pc != Reset
    && (OnIdle(w.pc) ==> w.land == Idle)
    && (w.pc == TxBoard ==> w.land == Tx)
    && (w.pc == RxBoard ==> w.land == Rx)
  }

  predicate BufferInvariant(s: State) {
    |s.sh.txBuf| == CAPACITY && |s.sh.rxBuf| == CAPACITY && s.w.i <= s.w.len
  }

  /** The worker has read an RD command and not yet posted `rx_ready` for it. */
  predicate HoldsRead(w: Worker) {
    || ((w.pc.ClearCmd? || w.pc.Board?) && w.held == Rd)
    || ((w.pc.LastCheck? || w.pc.LoopEnd? || w.pc.Switch? || w.pc.Exited?) && w.land == Rx)
    || Receiving(w.pc)
  }

  predicate Reading(c: Client) { (c.pc.ReadPost? || c.pc.ReadWait?) }

  /** The command is in the slot and will be read there. */
  predicate InSlot(s: State, x: Command) { s.sh.cmd == x && s.w.pc != ClearCmd }

  predicate TokenInvariant(s: State) {
    && s.sh.rxReady + s.log.succeeded == s.log.served
    && s.log.taken == s.log.served + One(HoldsRead(s.w))
    && s.log.taken + One(InSlot(s, Rd)) <= s.log.issued
    && s.log.issued == s.log.succeeded + s.log.expired + One(Reading(s.c))
  }

  predicate Stopping(s: State) { s.sh.stop && (s.c.pc.Join? || s.c.pc.Gone?) }

  /** Positions from which the worker waits for `active` before it looks at `stop`. */
  predicate BeforeWait(w: Worker) {
    || w.pc.Switch? || w.pc.Wait? || w.pc.TxBoard? || w.pc.TxPost? || Receiving(w.pc) || w.pc.Reset?
    || (w.pc == LoopEnd && !w.quit)
  }

  predicate StopInvariant(s: State) {
    && (s.sh.stop <==> (s.c.pc.StopPost? || s.c.pc.Join? || s.c.pc.Gone?))
    && (s.w.quit ==> s.sh.stop && (s.w.pc.LoopEnd? || s.w.pc.Exited?))
    && (s.w.pc == Exited ==> s.w.quit)
    && (s.c.pc == Gone ==> s.w.pc == Exited)
    && (Stopping(s) && BeforeWait(s.w) ==> s.sh.active > 0)
  }

  predicate Invariant(s: State) {
    LandInvariant(s.w) && BufferInvariant(s) && TokenInvariant(s) && StopInvariant(s)
  }

  lemma WorkKeepsLand(s: State)
    requires LandInvariant(s.w) && WorkerEnabled(s)
    ensures LandInvariant(WorkerStep(s).w)
  {
  }

  lemma WorkKeepsBuffers(s: State)
    requires BufferInvariant(s) && WorkerEnabled(s)
    ensures BufferInvariant(WorkerStep(s))
  {
  }

  lemma WorkServes(s: State)
    requires LandInvariant(s.w) && StopInvariant(s) && WorkerEnabled(s)
    ensures var t := WorkerStep(s);
      && t.log.taken - t.log.served - One(HoldsRead(t.w)) == s.log.taken - s.log.served - One(HoldsRead(s.w))
      && t.log.served - t.sh.rxReady == s.log.served - s.sh.rxReady
  {
  }

  lemma WorkTakes(s: State)
    requires WorkerEnabled(s)
    ensures var t := WorkerStep(s);
      && t.log == s.log.(taken := t.log.taken, served := t.log.served, stray := t.log.stray) && t.c == s.c
      && t.log.taken + One(InSlot(t, Rd)) <= s.log.taken + One(InSlot(s, Rd))
  {
  }

  lemma WorkKeepsTokens(s: State)
    requires LandInvariant(s.w) && TokenInvariant(s) && StopInvariant(s) && WorkerEnabled(s)
    ensures TokenInvariant(WorkerStep(s))
  {
    hide WorkerStep, HoldsRead;
    WorkServes(s);
    WorkTakes(s);
  }

  lemma WorkKeepsStop(s: State)
    requires LandInvariant(s.w) && StopInvariant(s) && WorkerEnabled(s)
    ensures StopInvariant(WorkerStep(s))
  {
  }

  lemma ClientCounts(s: State)
    ensures var t := ClientStep(s);
      && t.w == s.w && t.log.taken == s.log.taken && t.log.served == s.log.served
      && t.sh.rxReady + t.log.succeeded == s.sh.rxReady + s.log.succeeded
      && t.log.issued - One(InSlot(t, Rd)) >= s.log.issued - One(InSlot(s, Rd))
  {
  }

  lemma ClientBalance(s: State)
    ensures var t := ClientStep(s);
      t.log.issued - t.log.succeeded - t.log.expired - One(Reading(t.c))
      == s.log.issued - s.log.succeeded - s.log.expired - One(Reading(s.c))
  {
  }

  lemma ClientKeepsTokens(s: State)
    requires TokenInvariant(s)
    ensures TokenInvariant(ClientStep(s)) && ClientStep(s).w == s.w
  {
    hide ClientStep, Reading, HoldsRead;
    ClientCounts(s);
    ClientBalance(s);
  }

  lemma ClientKeepsRest(s: State)
    requires LandInvariant(s.w) && BufferInvariant(s) && StopInvariant(s)
    ensures BufferInvariant(ClientStep(s)) && StopInvariant(ClientStep(s))
  {
  }

  lemma StepKeeps(s: State, a: Choice)
    requires Invariant(s)
    ensures Invariant(Step(s, a))
  {
    hide WorkerStep, ClientStep;
    if a.Work? {
      if WorkerEnabled(s) {
        WorkKeepsLand(s);
        WorkKeepsBuffers(s);
        WorkKeepsTokens(s);
        WorkKeepsStop(s);
      }
    } else if a.Go? {
      ClientKeepsTokens(s);
      ClientKeepsRest(s);
    }
  }

  lemma {:induction false} RunKeeps(s: State, choices: seq<Choice>)
    requires Initial(s)
    ensures Invariant(Run(s, choices))
  {
    hide Step, Invariant;
    if choices == [] {
      InitialInvariant(s);
    } else {
      RunKeeps(s, choices[..|choices| - 1]);
      StepKeeps(Run(s, choices[..|choices| - 1]), choices[|choices| - 1]);
    }
  }

  lemma InitialInvariant(s: State)
    requires Initial(s)
    ensures Invariant(s)
  {
  }

  /** Token conservation, in every run, with expired reads or without: tokens in `rx_ready` are
      RD commands executed less reads that succeeded; no more RD commands are executed than reads
      were issued; so tokens left over never exceed the expired reads by more than the one read
      that may be in progress. */
  lemma TokenConservation(s0: State, choices: seq<Choice>)
    requires Initial(s0)
    ensures var s := Run(s0, choices);
      && s.sh.rxReady == s.log.served - s.log.succeeded
      && s.log.served <= s.log.taken <= s.log.issued
      && s.sh.rxReady <= s.log.expired + One(Reading(s.c))
  {
    RunKeeps(s0, choices);
  }

  /** In no run does `land` become the null island: the reset branch is dead code. */
  lemma NeverNull(s0: State, choices: seq<Choice>)
    requires Initial(s0)
    ensures Run(s0, choices).w.land != Null && Run(s0, choices).w.pc != Reset
  {
    RunKeeps(s0, choices);
  }

  // ----- Shutdown -----

  /** The island the worker is heading for. */
  function Heading(w: Worker): Land {
    if w.held == Wr then Tx else if w.held == Rd then Rx else w.land
  }

  /** The worker's own steps until it is at its wait again, when its next copy is of `n` bytes. */
  function ToWait(w: Worker, n: nat): nat {
    match w.pc
    case Wait => 0
    case Switch => FromSwitch(w.land, n)
    case LoopEnd => 1 + FromSwitch(w.land, n)
    case LastCheck => 2 + FromSwitch(w.land, n)
    case Board => 3 + FromSwitch(Heading(w), n)
    case ClearCmd => 4 + FromSwitch(Heading(w), n)
    case ReadCmd => 13 + n
    case FirstCheck => 14 + n
    case TxPost => 3
    case TxBoard => 4
    case RxPost => 3
    case RxCnt => 4
    case RxCopy => 5 + (if w.i <= w.len then w.len - w.i else 0)
    case RxLen => 6 + n
    case RxBoard => 7 + n
    case Reset => 3
    case Exited => 0
  }

  function FromSwitch(land: Land, n: nat): nat {
    match land
    case Idle => 1
    case Tx => 5
    case Rx => 8 + n
    case Null => 4
  }

  function NextCopy(s: State): nat { CopyCount(s.sh.txLen) }

  /** The longer of the copy the worker is making and its next one. */
  function LongestCopy(s: State): nat { if s.w.len > NextCopy(s) then s.w.len else NextCopy(s) }

  lemma WorkToWait(s: State)
    requires LandInvariant(s.w) && BufferInvariant(s) && WorkerEnabled(s) && s.w.pc != Wait
    ensures var t := WorkerStep(s);
      NextCopy(t) == NextCopy(s) && ToWait(t.w, NextCopy(s)) < ToWait(s.w, NextCopy(s))
  {
  }

  /** How many more steps of its own the worker takes at most once it has been told to stop. */
  function Remaining(w: Worker, n: nat): nat {
    match w.pc
    case Exited => 0
    case LastCheck => 2
    case Board => 3
    case ClearCmd => 4
    case ReadCmd => 5
    case FirstCheck => 6
    case _ => if w.quit then 1 else 7 + ToWait(w, n)
  }

  lemma WorkRemaining(s: State)
    requires Invariant(s) && Stopping(s) && s.w.pc != Exited
    ensures WorkerEnabled(s)
    ensures var t := WorkerStep(s);
      && Stopping(t) && NextCopy(t) == NextCopy(s)
      && Remaining(t.w, NextCopy(s)) < Remaining(s.w, NextCopy(s))
  {
    hide ToWait, FromSwitch, Heading;
    if s.w.pc != Wait {
      WorkToWait(s);
    }
    AtTheWait(s.w, NextCopy(s));
  }

  lemma AtTheWait(w: Worker, n: nat)
    ensures w.pc == Wait ==> ToWait(w, n) == 0
  {
  }

  function CountWork(choices: seq<Choice>): nat {
    if choices == [] then 0 else CountWork(choices[..|choices| - 1]) + One(choices[|choices| - 1].Work?)
  }

  function Works(n: nat): (r: seq<Choice>)
    ensures |r| == n
  {
    if n == 0 then [] else Works(n - 1) + [Work]
  }

  lemma {:induction false} WorksCount(n: nat)
    ensures CountWork(Works(n)) == n
  {
    if n > 0 {
      WorksCount(n - 1);
      assert Works(n)[..n - 1] == Works(n - 1);
    }
  }

  lemma {:induction false} StoppingRun(s: State, choices: seq<Choice>)
    requires Invariant(s) && Stopping(s)
    ensures var r := Run(s, choices);
      && Invariant(r) && Stopping(r) && NextCopy(r) == NextCopy(s)
      && (r.w.pc == Exited || Remaining(r.w, NextCopy(s)) + CountWork(choices) <= Remaining(s.w, NextCopy(s)))
  {
    hide Invariant, Remaining, WorkerStep, WorkerEnabled, NextCopy;
    if choices != [] {
      var n := |choices| - 1;
      var r, a := Run(s, choices[..n]), choices[n];
      StoppingRun(s, choices[..n]);
      StepKeeps(r, a);
      if !a.Work? {
        OthersStop(r, a);
      } else if r.w.pc != Exited {
        WorkRemaining(r);
        EnabledStep(r);
      } else {
        ExitedStays(r);
      }
    }
  }

  lemma EnabledStep(s: State)
    requires WorkerEnabled(s)
    ensures Step(s, Work) == WorkerStep(s)
  {
  }

  lemma OthersStop(s: State, a: Choice)
    requires Stopping(s) && !a.Work?
    ensures var t := Step(s, a); Stopping(t) && t.w == s.w && NextCopy(t) == NextCopy(s)
  {
  }

  lemma ExitedStays(s: State)
    requires s.w.pc == Exited
    ensures Step(s, Work) == s
  {
  }

  lemma RemainingBound(s: State)
    ensures Remaining(s.w, NextCopy(s)) <= LongestCopy(s) + 16
    ensures Remaining(s.w, NextCopy(s)) == 0 ==> s.w.pc == Exited
  {
  }

  /** Shutdown.  From every reachable state in which the client has set `stop` and posted
      `active`, the worker leaves its loop within `LongestCopy` + 17 of its own steps, whatever the
      interleaving, and it is never blocked on the way: every turn given to it counts. */
  lemma Shutdown(s0: State, before: seq<Choice>, after: seq<Choice>)
    requires Initial(s0) && Stopping(Run(s0, before))
    requires CountWork(after) >= LongestCopy(Run(s0, before)) + 17
    ensures Run(Run(s0, before), after).w.pc == Exited
  {
    hide Run, Invariant, Remaining, NextCopy, LongestCopy, CountWork;
    var s := Run(s0, before);
    RunKeeps(s0, before);
    StoppingRun(s, after);
    RemainingBound(s);
  }

  // ----- Destroying the device -----

  /** The device is given up only when its worker has left its loop. */
  lemma GoneAfterExit(s0: State, choices: seq<Choice>)
    requires Initial(s0)
    ensures var s := Run(s0, choices); s.c.pc.Gone? ==> s.w.pc == Exited
  {
    hide Run;
    RunKeeps(s0, choices);
  }

  lemma {:induction false} AfterExit(s: State, choices: seq<Choice>)
    requires s.w.pc == Exited && (s.c.pc.Join? || s.c.pc.Gone?)
    ensures var t := Run(s, choices);
      t.w.pc == Exited && (t.c.pc.Gone? || (t.c.pc.Join? && s.c.pc.Join? && Go !in choices))
  {
    hide WorkerStep;
    if choices != [] {
      AfterExit(s, choices[..|choices| - 1]);
    }
  }

  lemma {:induction false} StoppingEnds(s: State, choices: seq<Choice>)
    requires Stopping(s)
    ensures Run(s, choices).c.pc.Join? || Run(s, choices).c.pc.Gone?
  {
    hide WorkerStep;
    if choices != [] {
      var n := |choices| - 1;
      StoppingEnds(s, choices[..n]);
      var r := Run(s, choices[..n]);
      if choices[n].Work? && WorkerEnabled(r) {
        WorkTakes(r);
      }
    }
  }

  /** From every reachable stopping state a destroy has returned once the worker has had `LongestCopy`
      + 17 turns and then the client one. */
  lemma DestroyReturns(s0: State, before: seq<Choice>, after: seq<Choice>, more: seq<Choice>)
    requires Initial(s0) && Stopping(Run(s0, before))
    requires CountWork(after) >= LongestCopy(Run(s0, before)) + 17 && Go in more
    ensures Run(Run(Run(s0, before), after), more).c.pc.Gone?
  {
    hide Run, CountWork, LongestCopy, Stopping;
    Shutdown(s0, before, after);
    StoppingEnds(Run(s0, before), after);
    AfterExit(Run(Run(s0, before), after), more);
  }

  /** From every reachable state in which the client is idle, a destroy can return. */
  lemma DestroyCanReturn(s0: State, before: seq<Choice>) returns (after: seq<Choice>)
    requires Initial(s0) && Run(s0, before).c.pc.Ready?
    ensures Run(Run(s0, before), after).c.pc.Gone?
  {
    hide Run, CountWork, Works, LongestCopy, Step;
    var s := Run(s0, before);
    var first := [BeginDestroy] + [Go] + [Go];
    var t := Step(Step(Step(s, BeginDestroy), Go), Go);
    RunOne(s, BeginDestroy);
    RunOne(Step(s, BeginDestroy), Go);
    RunOne(Step(Step(s, BeginDestroy), Go), Go);
    RunAppend(s, [BeginDestroy], [Go]);
    RunAppend(s, [BeginDestroy] + [Go], [Go]);
    RunAppend(s0, before, first);
    DestroyPosts(s);
    var n := LongestCopy(t) + 17;
    WorksCount(n);
    DestroyReturns(s0, before + first, Works(n), [Go]);
    after := first + Works(n) + [Go];
    RunAppend(s, first, Works(n));
    RunAppend(s, first + Works(n), [Go]);
  }

  lemma DestroyPosts(s: State)
    requires s.c.pc.Ready?
    ensures Stopping(Step(Step(Step(s, BeginDestroy), Go), Go))
  {
  }

  /** Once it has been told to stop, the worker takes a command from the slot only if it has already
      passed its test of `stop`. */
  lemma {:induction false} StoppedTakesNothing(s: State, choices: seq<Choice>)
    requires Stopping(s)
    ensures var t := Run(s, choices);
      Stopping(t) && t.log.taken <= s.log.taken + One(s.w.pc.ReadCmd?) - One(t.w.pc.ReadCmd?)
  {
    hide WorkerStep;
    if choices != [] {
      var n := |choices| - 1;
      StoppedTakesNothing(s, choices[..n]);
      var r := Run(s, choices[..n]);
      if choices[n].Work? && WorkerEnabled(r) {
        StoppedTakes(r);
      } else if !choices[n].Work? {
        OthersStop(r, choices[n]);
      }
    }
  }

  lemma StoppedTakes(s: State)
    requires Stopping(s) && WorkerEnabled(s)
    ensures var t := WorkerStep(s);
      Stopping(t) && t.log.taken + One(t.w.pc.ReadCmd?) <= s.log.taken + One(s.w.pc.ReadCmd?)
  {
  }
}
