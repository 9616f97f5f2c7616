/** One bridged session under every interleaving of its threads: the two pumps, the archive-hello timer and
    the Character Advancement bootstrap timers all write to one client socket, and the bootstrap owed after a
    world entry is armed, disarmed and timed under a second lock. */
module Bridge {
  import opened Bytes
  import opened Framing
  import opened Bootstrap

  /** What a thread still has to do, in order: send a packet to the client (possibly as part of bootstrap
      number `boot`), arm the bootstrap, run it if it is still owed, or close the session. */
  datatype Job = Send(p: Packet, boot: Option<nat>) | Arm | Boot | Shut

  /** Between locks, inside `sendall` with some bytes written, or at a statement under `ca_lock`. */
  datatype Phase = Ready | Writing(done: nat) | InCa(stage: nat)

  datatype Thread = Thread(jobs: seq<Job>, phase: Phase)

  datatype Timer = Pending | Cancelled | Fired(thread: nat)

  datatype Logged = Logged(p: Packet, boot: Option<nat>)

  /** `wire` is what the client's socket has accepted; once `dead` it accepts nothing more. `log`, `stub`,
      `boots` and `entries` only record: packets written whole, the piece of a packet cut off by the
      socket's death, what each bootstrap reads on its way, and the world entries armed. */
  datatype State = State(
    threads: seq<Thread>, clientLock: Option<nat>, caLock: Option<nat>,
    armed: bool, timer: Option<nat>, timers: seq<Timer>,
    dead: bool, wire: seq<byte>,
    log: seq<Logged>, stub: seq<byte>, boots: seq<Seen>, entries: nat)

  /** Two idle pumps. */
  function Init(): State {
    State([Thread([], Ready), Thread([], Ready)], None, None, false, None, [], false, [], [], [], [], 0)
  }

  function Encoded(p: Packet): (s: seq<byte>)
    ensures |s| >= 4
  {
    Frame(ToClient, None, p)
  }

  function Sends(ps: seq<Packet>, b: nat): (js: seq<Job>)
    ensures |js| == |ps|
  {
    seq(|ps|, i requires 0 <= i < |ps| => Send(ps[i], Some(b)))
  }

  datatype Action =
    | Begin(t: nat, jobs: seq<Job>)
    | Spawn(jobs: seq<Job>)
    | Fire(id: nat)
    | LockClient(t: nat)
    | Write(t: nat, n: nat)
    | Written(t: nat)
    | Fail(t: nat, jobs: seq<Job>)
    | LockCa(t: nat)
    | Ca(t: nat, seen: Seen)
    | Die

  /** Jobs a pump or the hello timer may start with: packets that fit a frame, and no bootstrap's. */
  predicate Plain(jobs: seq<Job>) {
    forall j :: j in jobs ==> j.Send? ==> FitsS2C(j.p) && j.boot.None?
  }

  predicate At(s: State, t: nat, phase: Phase) {
    t < |s.threads| && s.threads[t].phase == phase
  }

  predicate Head(s: State, t: nat) {
    t < |s.threads| && s.threads[t].jobs != []
  }

  predicate Enabled(s: State, a: Action) {
    match a
    case Begin(t, jobs) => At(s, t, Ready) && s.threads[t].jobs == [] && t < 2 && Plain(jobs)
    case Spawn(jobs) => Plain(jobs)
    case Fire(id) => id < |s.timers| && s.timers[id].Pending?
    case LockClient(t) => Head(s, t) && At(s, t, Ready) && s.threads[t].jobs[0].Send? && s.clientLock.None?
    case Write(t, n) =>
      && Head(s, t) && s.threads[t].phase.Writing? && s.threads[t].jobs[0].Send? && !s.dead
      && s.threads[t].phase.done + n <= |Encoded(s.threads[t].jobs[0].p)|
    case Written(t) =>
      && Head(s, t) && s.threads[t].jobs[0].Send?
      && At(s, t, Writing(|Encoded(s.threads[t].jobs[0].p)|))
    case Fail(t, jobs) =>
      && Head(s, t) && s.threads[t].phase.Writing? && s.threads[t].jobs[0].Send?
      && s.threads[t].phase.done < |Encoded(s.threads[t].jobs[0].p)|
      && (jobs == [] || jobs == [Shut])
    case LockCa(t) => Head(s, t) && At(s, t, Ready) && !s.threads[t].jobs[0].Send? && s.caLock.None?
    case Ca(t, seen) =>
      && Head(s, t) && s.threads[t].phase.InCa? && !s.threads[t].jobs[0].Send? && s.threads[t].phase.stage < 3
      && |seen.known| <= MAX_UPLOAD
    case Die => true
  }

  function Put(s: State, t: nat, jobs: seq<Job>, phase: Phase): State
    requires t < |s.threads|
  {
    s.(threads := s.threads[t := Thread(jobs, phase)])
  }

  function Cancel(s: State): State {
    if s.timer.Some? && s.timer.value < |s.timers| && s.timers[s.timer.value].Pending? then
      s.(timers := s.timers[s.timer.value := Cancelled])
    else s
  }

  /** The statements under `ca_lock`, one a step; the last releases the lock. */
  function CaStep(s: State, t: nat, seen: Seen): State
    requires Head(s, t) && s.threads[t].phase.InCa?
  {
    var job, rest, stage := s.threads[t].jobs[0], s.threads[t].jobs[1..], s.threads[t].phase.stage;
    var here := s.threads[t].jobs;
    match job
    case Send(_, _) => s
    case Arm =>
      if stage == 0 then Put(s.(armed := true, entries := s.entries + 1), t, here, InCa(1))
      else if stage == 1 then Put(Cancel(s), t, here, InCa(2))
      else Put(s.(timer := Some(|s.timers|), timers := s.timers + [Pending], caLock := None), t, rest, Ready)
    case Boot =>
      if stage == 0 then
        if s.armed then Put(s.(armed := false), t, here, InCa(1))
        else Put(s.(caLock := None), t, rest, Ready)
      else if stage == 1 then Put(Cancel(s), t, here, InCa(2))
      else Put(s.(timer := None, caLock := None, boots := s.boots + [seen]),
               t, Sends(Script(seen), |s.boots|) + rest, Ready)
    case Shut =>
      if stage == 0 then Put(s.(armed := false), t, here, InCa(1))
      else if stage == 1 then Put(Cancel(s), t, here, InCa(2))
      else Put(s.(timer := None, caLock := None), t, rest, Ready)
  }

  function Next(s: State, a: Action): State
    requires Enabled(s, a)
  {
    match a
    case Begin(t, jobs) => Put(s, t, jobs, Ready)
    case Spawn(jobs) => s.(threads := s.threads + [Thread(jobs, Ready)])
    case Fire(id) =>
      s.(threads := s.threads + [Thread([Boot], Ready)], timers := s.timers[id := Fired(|s.threads|)])
    case LockClient(t) => Put(s.(clientLock := Some(t)), t, s.threads[t].jobs, Writing(0))
    case Write(t, n) =>
      var th := s.threads[t];
      Put(s.(wire := s.wire + Encoded(th.jobs[0].p)[th.phase.done..th.phase.done + n]),
          t, th.jobs, Writing(th.phase.done + n))
    case Written(t) =>
      var th := s.threads[t];
      Put(s.(clientLock := None, log := s.log + [Logged(th.jobs[0].p, th.jobs[0].boot)]), t, th.jobs[1..], Ready)
    case Fail(t, jobs) =>
      var th := s.threads[t];
      Put(s.(clientLock := None, dead := true, stub := s.stub + Encoded(th.jobs[0].p)[..th.phase.done]), t, jobs, Ready)
    case LockCa(t) => Put(s.(caLock := Some(t)), t, s.threads[t].jobs, InCa(0))
    case Ca(t, seen) => CaStep(s, t, seen)
    case Die => s.(dead := true)
  }

  ghost predicate Reachable(s: State, n: nat)
    decreases n
  {
    if n == 0 then s == Init()
    else exists r, a :: Reachable(r, n - 1) && Enabled(r, a) && s == Next(r, a)
  }

  // ---- the locks -----------------------------------------------------------------------

  /** A thread is inside a critical section exactly while it holds the lock, working on its head job. */
  ghost predicate Holds(th: Thread, t: nat, clientLock: Option<nat>, caLock: Option<nat>) {
    && (th.phase.Writing? <==> clientLock == Some(t))
    && (th.phase.InCa? <==> caLock == Some(t))
    && (th.phase.Writing? ==> th.jobs != [] && th.jobs[0].Send? && th.phase.done <= |Encoded(th.jobs[0].p)|)
    && (th.phase.InCa? ==> th.jobs != [] && !th.jobs[0].Send? && th.phase.stage < 3)
  }

  ghost predicate LocksHeld(s: State) {
    forall t :: 0 <= t < |s.threads| ==> Holds(s.threads[t], t, s.clientLock, s.caLock)
  }

  ghost predicate HoldersExist(s: State) {
    && (s.clientLock.Some? ==> s.clientLock.value < |s.threads|)
    && (s.caLock.Some? ==> s.caLock.value < |s.threads|)
  }

  lemma LocksKept(s: State, a: Action)
    requires LocksHeld(s) && HoldersExist(s) && Enabled(s, a)
    ensures LocksHeld(Next(s, a)) && HoldersExist(Next(s, a))
  {
    hide Encoded, Script, Sends;
    if a.Ca? {
      CaLocksKept(s, a.t, a.seen);
    } else {
      var s' := Next(s, a);
      forall t | 0 <= t < |s'.threads| ensures Holds(s'.threads[t], t, s'.clientLock, s'.caLock) {
        if t < |s.threads| {
          assert Holds(s.threads[t], t, s.clientLock, s.caLock);
        }
      }
    }
  }

  /** What every statement under `ca_lock` leaves alone, and how it moves on. */
  predicate CaMoved(s: State, s': State, t: nat)
    requires t < |s.threads|
  {
    && s'.clientLock == s.clientLock && s'.wire == s.wire && s'.log == s.log && s'.stub == s.stub
    && s'.dead == s.dead && |s'.threads| == |s.threads|
    && s'.threads == s.threads[t := s'.threads[t]]
    && (if s'.caLock.Some? then
          && s'.caLock == s.caLock && s'.threads[t].jobs == s.threads[t].jobs
          && s'.threads[t].phase.InCa? && s'.threads[t].phase.stage < 3
        else s'.threads[t].phase == Ready)
  }

  lemma CaShape(s: State, t: nat, seen: Seen)
    requires LocksHeld(s) && HoldersExist(s) && Enabled(s, Ca(t, seen))
    ensures s.caLock == Some(t) && CaMoved(s, CaStep(s, t, seen), t)
  {
    hide Encoded, Script, Sends, FitsS2C, CaStep;
    assert Holds(s.threads[t], t, s.clientLock, s.caLock);
    CaStepMoves(s, t, seen);
  }

  lemma PutMoves(s: State, r: State, t: nat, jobs: seq<Job>, phase: Phase)
    requires t < |s.threads| && r.threads == s.threads
    requires r.clientLock == s.clientLock && r.wire == s.wire && r.log == s.log && r.stub == s.stub && r.dead == s.dead
    requires if r.caLock.Some? then r.caLock == s.caLock && jobs == s.threads[t].jobs && phase.InCa? && phase.stage < 3
             else phase == Ready
    ensures CaMoved(s, Put(r, t, jobs, phase), t)
  {}

  lemma CaStepMoves(s: State, t: nat, seen: Seen)
    requires Head(s, t) && s.threads[t].phase.InCa? && s.threads[t].phase.stage < 3 && !s.threads[t].jobs[0].Send?
    requires s.caLock.Some?
    ensures CaMoved(s, CaStep(s, t, seen), t)
  {
    hide Sends, CaMoved, Put;
    var job, rest, stage := s.threads[t].jobs[0], s.threads[t].jobs[1..], s.threads[t].phase.stage;
    var here := s.threads[t].jobs;
    var free := s.(caLock := None);
    if stage == 0 {
      PutMoves(s, s.(armed := job.Arm?, entries := if job.Arm? then s.entries + 1 else s.entries), t, here, InCa(1));
      PutMoves(s, free, t, rest, Ready);
    } else if stage == 1 {
      PutMoves(s, Cancel(s), t, here, InCa(2));
    } else if job.Arm? {
      PutMoves(s, free.(timer := Some(|s.timers|), timers := s.timers + [Pending]), t, rest, Ready);
    } else {
      var r := free.(timer := None);
      PutMoves(s, r, t, rest, Ready);
      PutMoves(s, r.(boots := s.boots + [seen]), t, Sends(Script(seen), |s.boots|) + rest, Ready);
    }
  }

  lemma CaLocksKept(s: State, t: nat, seen: Seen)
    requires LocksHeld(s) && HoldersExist(s) && Enabled(s, Ca(t, seen))
    ensures LocksHeld(CaStep(s, t, seen)) && HoldersExist(CaStep(s, t, seen))
  {
    hide Encoded, Script, CaStep;
    CaShape(s, t, seen);
    var s' := CaStep(s, t, seen);
    forall u | 0 <= u < |s'.threads| ensures Holds(s'.threads[u], u, s'.clientLock, s'.caLock) {
      assert Holds(s.threads[u], u, s.clientLock, s.caLock);
    }
  }

  // ---- the bootstrap ---------------------------------------------------------------------

  /** With the lock free the bootstrap is owed exactly when its timer is set; under the lock the
      statement reached says how far the two have been moved. */
  ghost predicate ArmedIsTimed(s: State) {
    match s.caLock
    case None => s.armed <==> s.timer.Some?
    case Some(t) =>
      Head(s, t) && s.threads[t].phase.InCa? &&
      var stage := s.threads[t].phase.stage;
      if stage == 0 then s.armed <==> s.timer.Some? else s.armed <==> s.threads[t].jobs[0].Arm?
  }

  lemma ArmedIsTimedKept(s: State, a: Action)
    requires LocksHeld(s) && HoldersExist(s) && ArmedIsTimed(s) && Enabled(s, a)
    ensures ArmedIsTimed(Next(s, a))
  {
    hide Encoded, Script, Sends, CaStep;
    if a.Ca? {
      CaArmed(s, a.t, a.seen);
    } else if s.caLock.Some? {
      assert Holds(s.threads[s.caLock.value], s.caLock.value, s.clientLock, s.caLock);
    }
  }

  lemma CaArmed(s: State, t: nat, seen: Seen)
    requires LocksHeld(s) && HoldersExist(s) && ArmedIsTimed(s) && Enabled(s, Ca(t, seen))
    ensures ArmedIsTimed(CaStep(s, t, seen))
  {
    hide Encoded, Script, Sends, FitsS2C;
    assert Holds(s.threads[t], t, s.clientLock, s.caLock);
  }

  /** Bootstraps started, plus the one owed, never exceed the world entries armed. */
  ghost predicate Paid(s: State) {
    |s.boots| + (if s.armed then 1 else 0) + (if Taken(s) then 1 else 0) <= s.entries
  }

  /** A bootstrap has been disarmed by the thread that will send it but is not counted yet. */
  ghost predicate Taken(s: State) {
    s.caLock.Some? && Head(s, s.caLock.value) && s.threads[s.caLock.value].jobs[0].Boot?
    && s.threads[s.caLock.value].phase.InCa? && s.threads[s.caLock.value].phase.stage > 0
  }

  lemma PaidKept(s: State, a: Action)
    requires LocksHeld(s) && HoldersExist(s) && ArmedIsTimed(s) && Paid(s) && Enabled(s, a)
    ensures Paid(Next(s, a))
  {
    hide Encoded, Script, Sends, CaStep;
    if a.Ca? {
      CaPaid(s, a.t, a.seen);
    } else if s.caLock.Some? {
      assert Holds(s.threads[s.caLock.value], s.caLock.value, s.clientLock, s.caLock);
    }
  }

  lemma CaPaid(s: State, t: nat, seen: Seen)
    requires LocksHeld(s) && HoldersExist(s) && ArmedIsTimed(s) && Paid(s) && Enabled(s, Ca(t, seen))
    ensures Paid(CaStep(s, t, seen))
  {
    hide Encoded, Script, Sends, FitsS2C;
    assert Holds(s.threads[t], t, s.clientLock, s.caLock);
  }

  // ---- the wire ----------------------------------------------------------------------------

  function Packets(log: seq<Logged>): (ps: seq<Packet>)
    ensures |ps| == |log|
  {
    seq(|log|, i requires 0 <= i < |log| => log[i].p)
  }

  /** The written piece of the packet the lock holder is sending. */
  function Partial(s: State): seq<byte> {
    if s.clientLock.Some? && Head(s, s.clientLock.value) then
      var th := s.threads[s.clientLock.value];
      if th.jobs[0].Send? && th.phase.Writing? && th.phase.done <= |Encoded(th.jobs[0].p)| then
        Encoded(th.jobs[0].p)[..th.phase.done]
      else []
    else []
  }

  ghost predicate Cut(piece: seq<byte>) {
    piece == [] || exists p :: FitsS2C(p) && piece < Encoded(p)
  }

  predicate JobsFit(jobs: seq<Job>) {
    forall j :: j in jobs ==> j.Send? ==> FitsS2C(j.p)
  }

  ghost predicate AllFit(s: State) {
    && (forall t :: 0 <= t < |s.threads| ==> JobsFit(s.threads[t].jobs))
    && (forall e :: e in s.log ==> FitsS2C(e.p))
  }

  /** The wire is whole frames, then the piece being written or the piece the socket died in. */
  ghost predicate WireIsFrames(s: State) {
    && s.wire == FrameAll(ToClient, None, Packets(s.log)) + s.stub + Partial(s)
    && (s.stub != [] ==> s.dead && Partial(s) == [])
    && Cut(s.stub)
  }

  lemma AllFitKept(s: State, a: Action)
    requires AllFit(s) && Enabled(s, a)
    ensures AllFit(Next(s, a))
  {
    hide Encoded, Script, FitsS2C, CaStep;
    var s' := Next(s, a);
    if a.Ca? {
      CaJobs(s, a.t, a.seen);
    }
    forall t | 0 <= t < |s'.threads| ensures JobsFit(s'.threads[t].jobs) {
      if t < |s.threads| {
        assert JobsFit(s.threads[t].jobs);
        if a.Ca? {
          CaJobsFit(s, a.t, a.seen, t);
        }
      }
    }
    if a.Written? {
      assert JobsFit(s.threads[a.t].jobs);
    }
  }

  lemma CaJobsFit(s: State, t: nat, seen: Seen, u: nat)
    requires AllFit(s) && Enabled(s, Ca(t, seen)) && u < |s.threads|
    ensures var s' := CaStep(s, t, seen); |s'.threads| == |s.threads| && s'.log == s.log && JobsFit(s'.threads[u].jobs)
  {
    hide Encoded, Script, FitsS2C, CaStep;
    assert JobsFit(s.threads[u].jobs);
    ScriptFits(seen);
    CaJobs(s, t, seen);
  }

  /** An action other than a write, its completion or its failure moves no bytes. */
  lemma PartialKept(s: State, a: Action)
    requires LocksHeld(s) && HoldersExist(s) && Enabled(s, a) && !a.Write? && !a.Written? && !a.Fail?
    ensures Partial(Next(s, a)) == Partial(s)
    ensures Next(s, a).wire == s.wire && Next(s, a).log == s.log && Next(s, a).stub == s.stub
    ensures s.dead ==> Next(s, a).dead
  {
    hide Encoded, Script, CaStep;
    if s.clientLock.Some? {
      var t := s.clientLock.value;
      assert Holds(s.threads[t], t, s.clientLock, s.caLock);
    }
    if a.Ca? {
      CaShape(s, a.t, a.seen);
    } else if a.Begin? || a.LockCa? {
      assert Holds(s.threads[a.t], a.t, s.clientLock, s.caLock);
    }
  }

  lemma WireKept(s: State, a: Action)
    requires LocksHeld(s) && HoldersExist(s) && AllFit(s) && WireIsFrames(s) && Enabled(s, a)
    ensures WireIsFrames(Next(s, a))
  {
    hide Encoded, Script, Sends, FrameAll, Partial;
    match a
    case Write(t, n) => HolderWrites(s, t, n);
    case Written(t) => HolderFinishes(s, t);
    case Fail(t, jobs) => HolderFails(s, t, jobs);
    case _ => PartialKept(s, a);
  }

  lemma HolderWrites(s: State, t: nat, n: nat)
    requires LocksHeld(s) && HoldersExist(s) && WireIsFrames(s) && Enabled(s, Write(t, n))
    ensures WireIsFrames(Next(s, Write(t, n)))
  {
    hide Encoded, FrameAll;
    var th := s.threads[t];
    assert Holds(th, t, s.clientLock, s.caLock);
    var whole, done := Encoded(th.jobs[0].p), th.phase.done;
    var s' := Next(s, Write(t, n));
    assert Partial(s') == whole[..done + n];
    Extended(s.wire, FrameAll(ToClient, None, Packets(s.log)) + s.stub, whole, done, n);
  }

  lemma Extended(wire: seq<byte>, base: seq<byte>, whole: seq<byte>, done: nat, n: nat)
    requires done + n <= |whole| && wire == base + whole[..done]
    ensures wire + whole[done..done + n] == base + whole[..done + n]
  {
    assert whole[..done] + whole[done..done + n] == whole[..done + n];
    assert base + whole[..done] + whole[done..done + n] == base + (whole[..done] + whole[done..done + n]);
  }

  lemma HolderFinishes(s: State, t: nat)
    requires LocksHeld(s) && HoldersExist(s) && WireIsFrames(s) && Enabled(s, Written(t))
    ensures WireIsFrames(Next(s, Written(t)))
  {
    hide FrameAll, Frame;
    var th := s.threads[t];
    assert Holds(th, t, s.clientLock, s.caLock);
    assert Partial(s) == Encoded(th.jobs[0].p) && s.stub == [];
    LogGrows(s.log, th.jobs[0].p, th.jobs[0].boot);
    var s' := Next(s, Written(t));
    assert Partial(s') == [];
    assert s'.wire == FrameAll(ToClient, None, Packets(s'.log)) + s'.stub + [];
  }

  lemma HolderFails(s: State, t: nat, jobs: seq<Job>)
    requires LocksHeld(s) && HoldersExist(s) && AllFit(s) && WireIsFrames(s) && Enabled(s, Fail(t, jobs))
    ensures WireIsFrames(Next(s, Fail(t, jobs)))
  {
    hide FrameAll, Encoded;
    var th := s.threads[t];
    assert Holds(th, t, s.clientLock, s.caLock);
    assert JobsFit(th.jobs) && th.jobs[0] in th.jobs;
    var piece := Encoded(th.jobs[0].p)[..th.phase.done];
    assert Partial(s) == piece;
    CutGrows(s.stub, th.jobs[0].p, th.phase.done);
    var s' := Next(s, Fail(t, jobs));
    assert Partial(s') == [];
    assert s'.wire == FrameAll(ToClient, None, Packets(s.log)) + (s.stub + piece) + [];
  }

  lemma LogGrows(log: seq<Logged>, p: Packet, boot: Option<nat>)
    ensures FrameAll(ToClient, None, Packets(log + [Logged(p, boot)]))
         == FrameAll(ToClient, None, Packets(log)) + Encoded(p)
  {
    PlainAppend(ToClient, Packets(log), p);
    assert Packets(log + [Logged(p, boot)]) == Packets(log) + [p];
  }

  lemma CutGrows(stub: seq<byte>, p: Packet, n: nat)
    requires Cut(stub) && FitsS2C(p) && n < |Encoded(p)| && (stub == [] || n == 0)
    ensures Cut(stub + Encoded(p)[..n])
  {
    if stub == [] {
      assert stub + Encoded(p)[..n] == Encoded(p)[..n] < Encoded(p);
    } else {
      assert stub + Encoded(p)[..n] == stub;
    }
  }

  /** The packets the client has whole: the logged ones, and one whose last byte is written. */
  function Delivered(s: State): seq<Packet> {
    Packets(s.log) +
    if s.clientLock.Some? && Head(s, s.clientLock.value)
       && s.threads[s.clientLock.value].jobs[0].Send?
       && At(s, s.clientLock.value, Writing(|Encoded(s.threads[s.clientLock.value].jobs[0].p)|))
    then [s.threads[s.clientLock.value].jobs[0].p] else []
  }

  /** The client reads whole frames only, at any moment: those delivered, and after them nothing that
      could be taken for a packet. */
  lemma ClientReadsWholeFrames(s: State)
    requires LocksHeld(s) && HoldersExist(s) && AllFit(s) && WireIsFrames(s)
    ensures ReadAll(ToClient, None, s.wire) == Stream(Delivered(s), Closed, None)
  {
    hide Encoded, ReadAll, FrameAll, LocksHeld, AllFit;
    var cut := s.stub + Partial(s);
    if Delivered(s) == Packets(s.log) {
      assert Cut(cut) by {
        PartialIsCut(s);
      }
      assert s.wire == FrameAll(ToClient, None, Packets(s.log)) + cut;
      ReadCut(s, Packets(s.log), cut);
    } else {
      var p := s.threads[s.clientLock.value].jobs[0].p;
      assert Partial(s) == Encoded(p);
      LogGrows(s.log, p, None);
      assert Packets(s.log + [Logged(p, None)]) == Delivered(s);
      assert s.wire == FrameAll(ToClient, None, Delivered(s)) + [];
      ReadCut(s, Delivered(s), []);
    }
  }

  lemma PartialIsCut(s: State)
    requires LocksHeld(s) && HoldersExist(s) && AllFit(s) && WireIsFrames(s) && Delivered(s) == Packets(s.log)
    ensures Cut(s.stub + Partial(s))
  {
    if Partial(s) == [] {
      assert s.stub + Partial(s) == s.stub;
    } else {
      var th := s.threads[s.clientLock.value];
      assert JobsFit(th.jobs) && th.jobs[0] in th.jobs;
      assert s.stub + Partial(s) == Partial(s);
      if th.phase.done == |Encoded(th.jobs[0].p)| {
        assert false;
      }
      assert Partial(s) < Encoded(th.jobs[0].p);
    }
  }

  lemma ReadCut(s: State, ps: seq<Packet>, cut: seq<byte>)
    requires LocksHeld(s) && HoldersExist(s) && AllFit(s) && WireIsFrames(s)
    requires ps == Delivered(s) || ps == Packets(s.log)
    requires Cut(cut)
    ensures ReadAll(ToClient, None, FrameAll(ToClient, None, ps) + cut) == Stream(ps, Closed, None)
  {
    forall p | p in ps ensures Fits(ToClient, p) {
      DeliveredFits(s, p);
    }
    StreamRoundTrip(ToClient, None, ps, cut);
    PlainStaysPlain(ToClient, ps);
    if cut != [] {
      var p :| FitsS2C(p) && cut < Encoded(p);
      CutServerFrame(p, cut);
    }
    assert ps + [] == ps;
  }

  lemma DeliveredFits(s: State, p: Packet)
    requires AllFit(s) && p in Delivered(s)
    ensures FitsS2C(p)
  {
    hide Encoded, FitsS2C;
    if p in Packets(s.log) {
      var i :| 0 <= i < |s.log| && Packets(s.log)[i] == p;
      assert s.log[i] in s.log;
    } else {
      assert JobsFit(s.threads[s.clientLock.value].jobs);
    }
  }

  // ---- the order within one bootstrap ----------------------------------------------------------

  function LogOf(log: seq<Logged>, b: nat): seq<Packet> {
    if log == [] then []
    else LogOf(log[..|log| - 1], b) + (if log[|log| - 1].boot == Some(b) then [log[|log| - 1].p] else [])
  }

  function Tagged(jobs: seq<Job>, b: nat): seq<Packet> {
    if jobs == [] then []
    else (if jobs[0].Send? && jobs[0].boot == Some(b) then [jobs[0].p] else []) + Tagged(jobs[1..], b)
  }

  /** One thread carries the rest of bootstrap b, exactly what the log lacks; or nobody does any more. */
  ghost predicate InOrder(s: State, b: nat) {
    && (forall t :: 0 <= t < |s.threads| && Tagged(s.threads[t].jobs, b) != [] ==>
          b < |s.boots| && LogOf(s.log, b) + Tagged(s.threads[t].jobs, b) == Script(s.boots[b]))
    && (forall t, u :: 0 <= t < u < |s.threads| ==>
          Tagged(s.threads[t].jobs, b) == [] || Tagged(s.threads[u].jobs, b) == [])
    && (if b < |s.boots| then LogOf(s.log, b) <= Script(s.boots[b]) else LogOf(s.log, b) == [])
  }

  lemma {:induction false} PlainUntagged(jobs: seq<Job>, b: nat)
    requires Plain(jobs)
    ensures Tagged(jobs, b) == []
    decreases |jobs|
  {
    if jobs != [] {
      assert jobs[0] in jobs;
      PlainUntagged(jobs[1..], b);
    }
  }

  lemma {:induction false} SendsTagged(ps: seq<Packet>, n: nat, rest: seq<Job>, b: nat)
    ensures Tagged(Sends(ps, n) + rest, b) == (if b == n then ps else []) + Tagged(rest, b)
    decreases |ps|
  {
    hide Tagged, Sends;
    SendsStep(ps, n, rest);
    if ps != [] {
      var tail := if b == n then ps[1..] else [];
      SendsTagged(ps[1..], n, rest, b);
      TaggedCons(Send(ps[0], Some(n)), Sends(ps[1..], n) + rest, b);
      assert ps == [ps[0]] + ps[1..];
      assert [ps[0]] + (tail + Tagged(rest, b)) == [ps[0]] + tail + Tagged(rest, b);
    }
  }

  lemma SendsStep(ps: seq<Packet>, n: nat, rest: seq<Job>)
    ensures ps == [] ==> Sends(ps, n) + rest == rest
    ensures ps != [] ==> Sends(ps, n) + rest == [Send(ps[0], Some(n))] + (Sends(ps[1..], n) + rest)
  {}

  lemma TaggedCons(j: Job, more: seq<Job>, b: nat)
    ensures Tagged([j] + more, b) == (if j.Send? && j.boot == Some(b) then [j.p] else []) + Tagged(more, b)
  {
    assert ([j] + more)[1..] == more;
  }

  lemma LogOfAppend(log: seq<Logged>, e: Logged, b: nat)
    ensures LogOf(log + [e], b) == LogOf(log, b) + (if e.boot == Some(b) then [e.p] else [])
  {
    assert (log + [e])[..|log|] == log;
  }

  /** An action that leaves every thread's share of bootstrap b, and the log of it, alone. */
  lemma OrderUnmoved(s: State, s': State, b: nat)
    requires InOrder(s, b) && |s.threads| <= |s'.threads| && s'.boots == s.boots
    requires LogOf(s'.log, b) == LogOf(s.log, b)
    requires forall t :: 0 <= t < |s'.threads| ==>
               Tagged(s'.threads[t].jobs, b) == []
               || (t < |s.threads| && Tagged(s'.threads[t].jobs, b) == Tagged(s.threads[t].jobs, b))
    ensures InOrder(s', b)
  {}

  lemma OrderKept(s: State, a: Action, b: nat)
    requires LocksHeld(s) && HoldersExist(s) && InOrder(s, b) && Enabled(s, a)
    ensures InOrder(Next(s, a), b)
  {
    hide Encoded, Sends, Script, LogOf, InOrder, LocksHeld;
    var s' := Next(s, a);
    match a
    case Begin(t, jobs) => PlainUntagged(jobs, b); OrderUnmoved(s, s', b);
    case Spawn(jobs) => PlainUntagged(jobs, b); OrderUnmoved(s, s', b);
    case Fire(_) => OrderUnmoved(s, s', b);
    case LockClient(_) => OrderUnmoved(s, s', b);
    case Write(_, _) => OrderUnmoved(s, s', b);
    case Written(t) => WrittenKeepsOrder(s, t, b);
    case Fail(t, jobs) => OrderUnmoved(s, s', b);
    case LockCa(_) => OrderUnmoved(s, s', b);
    case Ca(t, seen) => CaKeepsOrder(s, t, seen, b);
    case Die => OrderUnmoved(s, s', b);
  }

  lemma WrittenKeepsOrder(s: State, t: nat, b: nat)
    requires InOrder(s, b) && Enabled(s, Written(t))
    ensures InOrder(Next(s, Written(t)), b)
  {
    hide Encoded, Script, LogOf, InOrder;
    var jobs := s.threads[t].jobs;
    assert Tagged(jobs, b) == (if jobs[0].boot == Some(b) then [jobs[0].p] else []) + Tagged(jobs[1..], b);
    OneLogged(s, Next(s, Written(t)), t, Logged(jobs[0].p, jobs[0].boot), b);
  }

  lemma OneLogged(s: State, s': State, t: nat, e: Logged, b: nat)
    requires InOrder(s, b) && t < |s.threads| == |s'.threads|
    requires s'.log == s.log + [e] && s'.boots == s.boots
    requires forall u :: 0 <= u < |s.threads| && u != t ==> s'.threads[u] == s.threads[u]
    requires Tagged(s.threads[t].jobs, b)
          == (if e.boot == Some(b) then [e.p] else []) + Tagged(s'.threads[t].jobs, b)
    ensures InOrder(s', b)
  {
    hide Script, LogOf, Tagged;
    LogOfAppend(s.log, e, b);
    var more := Tagged(s'.threads[t].jobs, b);
    if e.boot == Some(b) {
      assert LogOf(s'.log, b) + more == LogOf(s.log, b) + ([e.p] + more);
    } else {
      assert LogOf(s'.log, b) == LogOf(s.log, b) && [] + more == more;
    }
  }

  lemma HeadUntagged(jobs: seq<Job>, b: nat)
    requires jobs != [] && !jobs[0].Send?
    ensures Tagged(jobs, b) == Tagged(jobs[1..], b)
  {}

  /** What a statement under `ca_lock` does to the jobs. */
  lemma CaJobs(s: State, t: nat, seen: Seen)
    requires Enabled(s, Ca(t, seen))
    ensures var s', jobs := CaStep(s, t, seen), s.threads[t].jobs;
            && s'.log == s.log && |s'.threads| == |s.threads|
            && (forall u :: 0 <= u < |s.threads| && u != t ==> s'.threads[u] == s.threads[u])
            && if jobs[0].Boot? && s.threads[t].phase.stage == 2 then
                 s'.boots == s.boots + [seen] && s'.threads[t].jobs == Sends(Script(seen), |s.boots|) + jobs[1..]
               else
                 s'.boots == s.boots && (s'.threads[t].jobs == jobs || s'.threads[t].jobs == jobs[1..])
  {
    hide Encoded, Script, Sends, FitsS2C, Cancel;
    CancelKeeps(s);
  }

  lemma CancelKeeps(s: State)
    ensures Cancel(s) == s.(timers := Cancel(s).timers)
  {}

  lemma CaKeepsOrder(s: State, t: nat, seen: Seen, b: nat)
    requires InOrder(s, b) && Enabled(s, Ca(t, seen))
    ensures InOrder(CaStep(s, t, seen), b)
  {
    hide Encoded, Script, LogOf, Sends, InOrder, Tagged, CaStep;
    var s' := CaStep(s, t, seen);
    var jobs := s.threads[t].jobs;
    CaJobs(s, t, seen);
    HeadUntagged(jobs, b);
    if jobs[0].Boot? && s.threads[t].phase.stage == 2 {
      SendsTagged(Script(seen), |s.boots|, jobs[1..], b);
      ScriptAdded(s, s', t, seen, b);
    } else {
      OrderUnmoved(s, s', b);
    }
  }

  lemma ScriptAdded(s: State, s': State, t: nat, seen: Seen, b: nat)
    requires InOrder(s, b) && t < |s.threads| == |s'.threads|
    requires s'.log == s.log && s'.boots == s.boots + [seen]
    requires forall u :: 0 <= u < |s.threads| && u != t ==> s'.threads[u] == s.threads[u]
    requires Tagged(s'.threads[t].jobs, b)
          == (if b == |s.boots| then Script(seen) else []) + Tagged(s.threads[t].jobs, b)
    ensures InOrder(s', b)
  {
    hide Encoded, Script, LogOf, Tagged;
    if b == |s.boots| {
      assert Tagged(s.threads[t].jobs, b) == [];
      assert Script(seen) + [] == Script(seen);
    } else {
      assert Tagged(s'.threads[t].jobs, b) == Tagged(s.threads[t].jobs, b);
    }
  }

  // ---- over every run ----------------------------------------------------------------------------

  ghost predicate Inv(s: State) {
    && LocksHeld(s) && HoldersExist(s) && ArmedIsTimed(s) && Paid(s) && AllFit(s) && WireIsFrames(s)
    && forall b: nat :: InOrder(s, b)
  }

  lemma {:induction false} ReachableKeepsInv(s: State, n: nat)
    requires Reachable(s, n)
    ensures Inv(s)
    decreases n
  {
    hide LocksHeld, HoldersExist, ArmedIsTimed, Paid, AllFit, WireIsFrames, InOrder, Next, Enabled;
    if n == 0 {
      InitHasInv();
    } else {
      var r, a :| Reachable(r, n - 1) && Enabled(r, a) && s == Next(r, a);
      ReachableKeepsInv(r, n - 1);
      LocksKept(r, a);
      ArmedIsTimedKept(r, a);
      PaidKept(r, a);
      AllFitKept(r, a);
      WireKept(r, a);
      forall b: nat ensures InOrder(s, b) {
        OrderKept(r, a, b);
      }
    }
  }

  lemma InitHasInv()
    ensures Inv(Init())
  {
    assert WireIsFrames(Init()) by {
      assert Packets([]) == [];
    }
    forall b: nat ensures InOrder(Init(), b) {}
  }

  /** The session's promises at any moment of any interleaving: the client has whole frames only; with
      `ca_lock` free the bootstrap is owed exactly when its timer is set; bootstraps never outnumber world
      entries; and of each bootstrap the client has a prefix of what its sender read to send, which comes in the
      order 0x725, class update, rows, 0x726, with no budget of a class but the character's own. */
  lemma EverySession(s: State, n: nat)
    requires Reachable(s, n)
    ensures ReadAll(ToClient, None, s.wire) == Stream(Delivered(s), Closed, None)
    ensures s.caLock.None? ==> (s.armed <==> s.timer.Some?)
    ensures |s.boots| <= s.entries
    ensures forall b :: 0 <= b < |s.boots| ==> BootOk(s, b)
  {
    hide ReadAll, Encoded, Script, IsBootstrap, OfFamily;
    ReachableKeepsInv(s, n);
    ClientReadsWholeFrames(s);
    forall b | 0 <= b < |s.boots| ensures BootOk(s, b) {
      assert InOrder(s, b);
      ScriptInOrder(s.boots[b]);
      if Served(s.boots[b]) {
        OwnBudgetOnly(s.boots[b]);
      } else {
        NoBudget(s.boots[b]);
      }
    }
  }

  predicate BootOk(s: State, b: nat)
    requires b < |s.boots|
  {
    var v, got := s.boots[b], LogOf(s.log, b);
    && got <= Script(v) && IsBootstrap(Script(v))
    && forall p :: p in got && p.opcode == SMSG_CA_ESSENCE_BUDGET ==> Served(v) && OfFamily(p, v.clas.value)
  }

  lemma NoBudget(v: Seen)
    requires !Served(v)
    ensures forall p :: p in Script(v) ==> p.opcode == SMSG_CA_ACTIVE_SPEC
  {}
}
